# Verified model of the binfhe bootstrapping engine

This project models the `binfhe` library of OpenFHE in Dafny and proves what it computes: LWE
encryption with modulus and key switching, the three RingGSW accumulators (Ducas-Micciancio,
CGGI and LMKCDEY), gate and functional bootstrapping, and the algorithms built on them (gates,
table evaluation, floor, sign, digit decomposition). `dafny verify dfyconfig.toml` checks it.

## Layers

| modules | content |
|---|---|
| `Arithmetic`, `Sums` | quotients, powers, closeness on the circle Z/M, finite sums |
| `NegacyclicRing`, `Automorphisms`, `RingNoise` | Z[X]/(X^N+1), X -> X^t, coefficientwise closeness modulo Q |
| `Gadget` | signed digit decomposition on 64-bit words |
| `FivePowers`, `RgswParams` | powers of 5 modulo 2N, parameters and precomputed tables |
| `ExternalProduct`, `Accumulator`, `AccumulatorDM`, `AccumulatorCGGI`, `AccumulatorLMKCDEY`, `LmkcdeySchedule` | keys, external product, automorphism and blind rotation |
| `LweBasics`, `Lwe`, `KeySwitching` | LWE ciphertexts, their operations and the switching chain |
| `Lookup`, `Bootstrapping` | table lookup, extraction, functional bootstrapping |
| `GateLogic`, `Gates`, `Circuits` | gates and circuits |
| `FunctionEval`, `Flooring`, `LargePrecision`, `SignEvaluation`, `DigitDecomposition`, `KeyMaps` | tables, floor, sign, digits, key maps |
| `EndToEnd` | whole runs from key generation to decryption |

Objects the library updates in place (`RLWECiphertext`, `LWECiphertext`,
`RingGSWCryptoParams`) are classes, and its loops are loops. Random draws are parameters with a
bound on the errors; nothing is said about probabilities.

## How statements are phrased

- `Close(x, y, b, M)`: x and y differ by at most b after taking off a multiple of M. `Near` is the
  same for all coefficients of two ring elements.
- `Holds(acc, cx, f, e, b)`: the phase of the accumulator is exactly f * X^e plus `acc.err`, the error its
  recorded steps have added up, and no coefficient of that error exceeds b.
- `Encodes(phase, q, m, p, e)`: the phase modulo q is the fraction m/p of the circle within e; `ErrorOf` is
  the least such e and `Distance` the distance of two points of the circle. `Carries` says it of a
  ciphertext under the small or the ring key, `OnGrid` of a message at scale 2beta.
- One product, automorphism, key switch, lookup or extraction is an exact equation with its error term
  spelled out. Methods return a ghost record of what happened (`GateRun`, `Node`, `Steps`, `FloorSteps`,
  `FloorData`), and the main theorems ask that the errors in that record fit the margin of the
  algorithm, nothing about errors that might have occurred.
- Worst cases are corollaries: `Context.Eps` and `Context.AutoEps` for one product and one automorphism,
  `AccNoise` for a blind rotation, `SwitchedError` for the switching chain, `FuncError` and `GateError` for
  a whole bootstrap. They hold for every draw, so they are larger than the typical errors parameter
  sets are chosen for. Where they fit (`Roomy` for circuits, `Budget` for sign and digits) no condition
  on the run is left; `EndToEnd.RoomyExample` and `EndToEnd.SignExample` give parameters that meet them.

## Where the code differs from what one expects

- The decomposition loses a carry for values just below Q/2; `Gadget.LostCarry` says exactly when,
  and the error appears in every noise term.
- With sign evaluation tables and a gadget base outside {2^14, 2^18, 2^27} the power table stays empty
  (`RgswParams.RingGSWCryptoParams.constructor`).
- CGGI keys treat every non-ternary secret entry as 0 (`AccumulatorCGGI.TernaryIsSigned`).
- Functional bootstrapping scales by floor(Q/fmod). The scaled table is exactly negacyclic if and only
  if fmod divides Q or opposite values sum to 0 (`Bootstrapping.ScaledExactlyIff`), and within Q mod fmod
  otherwise; the gate table is exact.
- A copied ciphertext has plaintext modulus 4, so `Bootstrap` takes its table from 4 and its offset from
  the input's p. Its output decrypts modulo p if and only if Q/8, Q/2p and the refresh error meet
  `BootstrapMargin` (`GateLogic.BootstrapDecodes`), which holds for p = 6 and fails for p = 12
  (`GateLogic.BootstrapExamples`); its input is read if and only if `ReadMargin` holds
  (`GateLogic.BootstrapReads`).
- `Bootstrap` adds a quarter of the modulus of its input. For an input modulo Q that is no quarter of q
  (`Gates.QuarterOfInput`), and the table is filled from an offset that need not be a residue. Both bits
  are still read, from every offset, for every vector and every accumulator, if and only if what is
  effectively added (Q/4, less q from q on) lies between one and three eighths of q, by the error
  present (`GateLogic.QuarterReads`, `Gates.ConstantReads`). For Q >= q that is Q < 1.5q or
  4.5q <= Q < 5.5q (`GateLogic.QuarterModuli`). Outside, every vector modulo Q belongs to a ciphertext
  whose bit is misread (`Gates.LargeInputMisread`); from Q = 10q on one of the phases 0 and Q/4 is,
  whatever the vector (`Gates.LargeInputUnread`).
- A periodic table whose first entry is half of the modulus counts as arbitrary unless all its entries
  are (`FunctionEval.PeriodicKind`), and so it is refused when q > N where other periodic tables are
  evaluated (`FunctionEval.PeriodicEvaluable`).
- `BTKeyGen` keeps the keys of earlier calls. Without time optimisation a call on a context that
  already has keys generates none, even for another secret; when there are keys but none for the
  current base, the default key is an unusable one (`KeyMaps.BTKeyGen`).
- The guards "p divides q" are masked out in the source, so divisibility or an explicit slack is a
  hypothesis here.

## Model

| member | source | states |
|---|---|---|
| `Gadget.SignExtension` | src/binfhe/lib/rgsw-acc.cpp:72-79 | shifting left and right by 64 - g extracts the residue in [-B/2, B/2), for every signed word and 1 <= g <= 64 |
| `Gadget.LostCarry` | src/binfhe/lib/rgsw-acc.cpp:66-91 | L centred digits plus c*B^L give every centred value back; c is 0 or 1, and it is 1 exactly when the value exceeds the largest digit sum |
| `Gadget.StoredSumClose` | src/binfhe/lib/rgsw-acc.cpp:66-91 | with the lowest digit dropped and negative digits stored plus Q, the kept digits represent the residue modulo Q up to the dropped digit and, where Q allows it, the lost carry |
| `Gadget.StoredDigitIs` | src/binfhe/lib/rgsw-acc.cpp:63-91 | the centred value of a residue lies in [floor(Q/2) - Q, floor(Q/2)), its digits in [-B/2, B/2), and each is stored as its residue modulo Q |
| `Gadget.DecompositionExact` | src/binfhe/lib/rgsw-acc.cpp:95-120 | recomposing the decomposition of a ring element gives the element plus its defect, exactly modulo Q; the defect is the dropped digit and the lost carry, at most GadgetError |
| `Gadget.SignedDigitDecompose` | src/binfhe/lib/rgsw-acc.cpp:55-92 | the two-element loop fills row 2d with digit d+1 of the first half and row 2d+1 with digit d+1 of the second |
| `Gadget.SignedDigitDecomposePoly` | src/binfhe/lib/rgsw-acc.cpp:95-120 | the one-element loop fills row d with digit d+1 |
| `Gadget.OverloadsAgree` | src/binfhe/lib/rgsw-acc.cpp:55-120 | even rows of one overload are the other overload on the first half, odd rows on the second |
| `FivePowers.FiveValuation` | src/binfhe/lib/rgsw-cryptoparameters.cpp:115-127 | 2^(k+2) divides 5^d - 1 exactly when 2^k divides d |
| `FivePowers.FiveInjective` | src/binfhe/lib/rgsw-cryptoparameters.cpp:122-126 | two powers of 5 agree modulo 2^(k+2) exactly when their exponents agree modulo 2^k |
| `FivePowers.FiveOrder` | src/binfhe/lib/rgsw-cryptoparameters.cpp:122-126 | the powers of 5 modulo 2N repeat after N/2 steps |
| `FivePowers.FiveSides` | src/binfhe/lib/rgsw-cryptoparameters.cpp:122-126 | powers of 5 are 1 and their negatives 3 modulo 4, so the two halves of the table never meet |
| `FivePowers.LogExists` | src/binfhe/lib/rgsw-cryptoparameters.cpp:115-127 | every residue that is 1 modulo 4 is a power of 5 modulo 2^(k+2) |
| `RgswParams.DigitCount` | src/binfhe/include/rgsw-cryptoparameters.h:222-229 | the digit count is the least L with base^L >= modulus |
| `RgswParams.ComputeDigitsR` | src/binfhe/lib/rgsw-cryptoparameters.cpp:38-46 | the table of digit weights holds baseR^i for every i below the digit count |
| `RgswParams.ComputeGPower` | src/binfhe/lib/rgsw-cryptoparameters.cpp:68-75 | the running product is baseG^i modulo Q |
| `RgswParams.ComputeGateConst` | src/binfhe/lib/rgsw-cryptoparameters.cpp:78-92 | every gate has its fraction of q, division rounded down as in the source |
| `RgswParams.ComputeMonomials` | src/binfhe/lib/rgsw-cryptoparameters.cpp:96-113 | entry i is X^i - 1 modulo Q for every i below 2N, the sign-flipped second half included |
| `RgswParams.ComputeLogGen` | src/binfhe/lib/rgsw-cryptoparameters.cpp:115-127 | every odd residue o gets a code whose signed power of 5 is o, with 2N standing for -1 |
| `RgswParams.LogTableInjective` | src/binfhe/lib/rgsw-cryptoparameters.cpp:115-127 | two odd residues share a code exactly when they are equal |
| `RgswParams.LogTableOnto` | src/binfhe/lib/rgsw-cryptoparameters.cpp:115-127 | every code the schedule visits is the code of an odd residue |
| `RgswParams.RingGSWCryptoParams.constructor` | src/binfhe/lib/rgsw-cryptoparameters.cpp:36-128 | all tables of the method are correct; sign evaluation tabulates exactly the bases 2^14, 2^18 and 2^27; the power table of the chosen base is usable if and only if sign evaluation was not asked for or the base is one of these |
| `RgswParams.RingGSWCryptoParams.PreCompute` | src/binfhe/lib/rgsw-cryptoparameters.cpp:36-128 | the same for the precomputation itself: the keys of the map are exactly 2^14, 2^18 and 2^27, each with the powers of its base |
| `RgswParams.RingGSWCryptoParams.ChangeBaseG` | src/binfhe/include/rgsw-cryptoparameters.h:222-229 | base, digit count and power table change together; an untabulated base leaves an empty table behind |
| `Automorphisms.AutoMul` | src/core/include/lattice/hal/default/poly-impl.h:310-365 | X -> X^t is multiplicative in Z[X]/(X^N+1), for every odd t |
| `Automorphisms.AutoAuto` | src/core/include/lattice/hal/default/poly-impl.h:310-365 | automorphisms compose by multiplying their exponents |
| `Automorphisms.AutoRot` | src/binfhe/lib/rgsw-acc-lmkcdey.cpp:249-260 | an automorphism turns f*X^m into f(X^t)*X^(m*t) |
| `NegacyclicRing.MulAssociative` | src/binfhe/lib/rgsw-acc-dm.cpp:136-142 | multiplication in Z[X]/(X^N+1), defined by its coefficients, is associative |
| `NegacyclicRing.MulMonomial` | src/binfhe/lib/rgsw-acc-cggi.cpp:134-152 | multiplying by X^m is a negacyclic rotation by m, for every integer m |
| `ExternalProduct.ExternalProductExact` | src/binfhe/lib/rgsw-acc-dm.cpp:118-143 | for any key, message mu and accumulator the product has phase mu * old phase + sum of digit_i * rowError_i + mu * phase of the two decomposition defects, exactly modulo Q |
| `ExternalProduct.ExternalProductPhase` | src/binfhe/lib/rgsw-acc-dm.cpp:118-143 | the worst case: mu times the old phase up to ProductNoise |
| `ExternalProduct.ProductErrorBounded` | src/binfhe/lib/rgsw-acc-dm.cpp:118-143 | for a monomial or zero message and row errors up to a bound, that error stays within ProductNoise |
| `ExternalProduct.AutomorphismExact` | src/binfhe/lib/rgsw-acc-lmkcdey.cpp:249-279 | for any key the result has phase old phase(X^t) + sum of digit_i * rowError_i - defect * z(X^t), exactly modulo Q |
| `ExternalProduct.AutoErrorBounded` | src/binfhe/lib/rgsw-acc-lmkcdey.cpp:249-279 | with row errors up to a bound, that error stays within AutoNoise |
| `ExternalProduct.AutomorphismPhase` | src/binfhe/lib/rgsw-acc-lmkcdey.cpp:249-279 | the worst case: the old phase with X replaced by X^t, up to AutoNoise |
| `Accumulator.RowProduct` | src/binfhe/lib/rgsw-acc-dm.cpp:137-142 | a column of the matrix product, accumulated modulo Q |
| `Accumulator.MultiplyIntoAcc` | src/binfhe/lib/rgsw-acc-dm.cpp:118-143 | both halves are overwritten by the columns of the product; the phase becomes mu times the old phase plus exactly the error of ExternalProductExact, for any mu |
| `Accumulator.TurnAcc` | src/binfhe/lib/rgsw-acc-lmkcdey.cpp:220-246 | with a key for X^m the accumulator goes from f*X^e to f*X^(e+m); its recorded error is turned by m and the exact product error added, within one more product noise |
| `Accumulator.RotStep` | src/binfhe/lib/rgsw-acc-dm.cpp:118-143 | exact step: f*X^e + err times X^m plus a product error is f*X^(e+m) with error err*X^m + product error |
| `Accumulator.EvenRowPhase` | src/binfhe/lib/rgsw-acc-dm.cpp:107-112 | a row with the gadget power in its first half has exactly the phase -B^j * mu * z plus the drawn error, and its mask is the drawn one plus the gadget power |
| `Accumulator.OddRowPhase` | src/binfhe/lib/rgsw-acc-dm.cpp:107-112 | a row with the gadget power in its second half has exactly the phase B^j * mu plus the drawn error, and its mask is the drawn one |
| `Accumulator.AddMonomialNear` | src/binfhe/lib/rgsw-acc-dm.cpp:92-109 | adding at mm, or subtracting at mm - N, is adding p*X^mm with X^N = -1 |
| `Accumulator.EncryptRow` | src/binfhe/lib/rgsw-acc-lmkcdey.cpp:183-195 | row i of a key is made from its sample: its phase is the gadget row of X^mm under the ring key plus the drawn error, exactly, and its mask the drawn one with the gadget power of the even rows |
| `Accumulator.EncryptMonomial` | src/binfhe/lib/rgsw-acc-lmkcdey.cpp:179-196 | all rows together are a key for X^mm, each made from a sample of its own |
| `AccumulatorDM.UnsignedResidue` | src/binfhe/lib/rgsw-acc-dm.cpp:89-92 | mixing the signed message with an unsigned 64-bit modulus still gives its residue modulo q, because q is a power of two up to 2^32 |
| `AccumulatorDM.Word32Product` | src/binfhe/lib/rgsw-acc-dm.cpp:52-55 | a product of 32-bit integers that wraps around keeps its residue modulo q |
| `AccumulatorDM.KeyGenDM` | src/binfhe/lib/rgsw-acc-dm.cpp:81-115 | the key is for X^(2N/q * m), for negative messages too, each row made from its own sample |
| `AccumulatorDM.KeyGenAcc` | src/binfhe/lib/rgsw-acc-dm.cpp:39-60 | slot (i, j, k) holds a key for s_i * j * R^k for every non-zero digit j, although the product is computed in 32 bits |
| `AccumulatorDM.AccumulateEntry` | src/binfhe/lib/rgsw-acc-dm.cpp:70-75 | the digits of one entry turn the accumulator by s_i times the whole entry |
| `AccumulatorDM.EvalAcc` | src/binfhe/lib/rgsw-acc-dm.cpp:62-77 | the accumulator is multiplied by exactly X^(2N/q * sum s_i * (-a_i mod q)), with the error of its steps recorded, at most one product noise per digit |
| `AccumulatorCGGI.KeyGenCGGI` | src/binfhe/lib/rgsw-acc-cggi.cpp:73-98 | a key for 1 or for 0, each row made from its own sample |
| `AccumulatorCGGI.KeyGenAcc` | src/binfhe/lib/rgsw-acc-cggi.cpp:41-59 | the two keys of an entry select s = 1 and s = -1 |
| `AccumulatorCGGI.TernaryIsSigned` | src/binfhe/lib/rgsw-acc-cggi.cpp:50-57 | the keys stand for the secret itself if and only if the secret is ternary |
| `AccumulatorCGGI.TableProduct` | src/binfhe/lib/rgsw-cryptoparameters.cpp:96-113 | multiplying by table entry i is multiplying by X^i - 1 |
| `AccumulatorCGGI.MuxSelects` | src/binfhe/lib/rgsw-acc-cggi.cpp:100-103 | 1 + mu1*(X^a - 1) + mu2*(X^-a - 1) is X^(s*a) for s = 1, -1 and 0 |
| `AccumulatorCGGI.MuxTurns` | src/binfhe/lib/rgsw-acc-cggi.cpp:100-153 | one MUX step turns the phase by s*a with exactly the two product errors times their binomials X^a - 1 and X^-a - 1 |
| `AccumulatorCGGI.AddToAccCGGI` | src/binfhe/lib/rgsw-acc-cggi.cpp:104-153 | one step turns the accumulator by s*a, for every index in [0, 2N], recording the exact error of MuxTurns, at most four product noises |
| `AccumulatorCGGI.EvalAcc` | src/binfhe/lib/rgsw-acc-cggi.cpp:61-70 | for every modulus dividing 2N and every ternary secret the accumulator is turned by 2N/mod * sum s_i * (-a_i mod mod), the same rotation as the DM accumulator |
| `AccumulatorLMKCDEY.KeyGenLMKCDEY` | src/binfhe/lib/rgsw-acc-lmkcdey.cpp:161-197 | the key is for X^(2N/q * m), with the truncating remainder of negative messages, each row made from its own sample |
| `AccumulatorLMKCDEY.KeyGenAuto` | src/binfhe/lib/rgsw-acc-lmkcdey.cpp:200-216 | the key switches from z(X^k) to z; each row has the drawn mask and exactly the phase -B^(i+1) * z(X^k) plus the drawn error |
| `AccumulatorLMKCDEY.KeyGenAcc` | src/binfhe/lib/rgsw-acc-lmkcdey.cpp:37-66 | slot i of the second row matches 5^i for 1 <= i <= w, slot 0 matches -5; needs w < n |
| `AccumulatorLMKCDEY.Automorphism` | src/binfhe/lib/rgsw-acc-lmkcdey.cpp:249-279 | the accumulator goes from f*X^e to f(X^t)*X^(e*t), its error with it plus the exact automorphism error; one automorphism more in its trace |
| `AccumulatorLMKCDEY.PlainAutomorphism` | src/binfhe/lib/rgsw-acc-lmkcdey.cpp:97-97 | the opening automorphism acts on one half only, which is exact because the other half is zero |
| `LmkcdeySchedule.OddVector` | src/binfhe/lib/rgsw-acc-lmkcdey.cpp:81-84 | every entry is odd, and is -a_i mod 2N or one more |
| `LmkcdeySchedule.FillBuckets` | src/binfhe/lib/rgsw-acc-lmkcdey.cpp:81-92 | every index i is listed in the bucket of the code of the odd one of -a_i mod 2N and the value above it, and in no other, in order |
| `LmkcdeySchedule.DrainAdds` | src/binfhe/lib/rgsw-acc-lmkcdey.cpp:101-111 | draining one more bucket counts exactly its positions, once |
| `LmkcdeySchedule.Rotate` | src/binfhe/lib/rgsw-acc-lmkcdey.cpp:103-103 | one automorphism by t consumes the factor t of the pending product and multiplies twist and exponent |
| `LmkcdeySchedule.DrainBucket` | src/binfhe/lib/rgsw-acc-lmkcdey.cpp:106-109 | one bucket adds c * sum of its s_i to the exponent when the pending product equals its signed power of 5 |
| `LmkcdeySchedule.MinusFive` | src/binfhe/lib/rgsw-acc-lmkcdey.cpp:127-127 | the two twists by -5 and the 2(N/2-1) rotations by 5 cancel modulo 2N |
| `LmkcdeySchedule.Sweep` | src/binfhe/lib/rgsw-acc-lmkcdey.cpp:99-117 | one sweep visits every bucket sign*5^i once, in windows of at most w; its automorphisms are at most floor((N/2-1)/w) + 1 plus one per non-empty bucket it passes |
| `LmkcdeySchedule.RunSchedule` | src/binfhe/lib/rgsw-acc-lmkcdey.cpp:94-155 | after the whole schedule nothing is pending, all buckets are drained, and the automorphisms are at most 2*(floor((N/2-1)/w)+1)+1 plus the number of non-empty buckets of 5^i and -5^i, 0 < i < N/2 |
| `LmkcdeySchedule.SweptSplit` | src/binfhe/lib/rgsw-acc-lmkcdey.cpp:99-149 | the two sweeps pass over exactly those non-empty buckets, each once |
| `LmkcdeySchedule.SweptBucketsAtMost` | src/binfhe/lib/rgsw-acc-lmkcdey.cpp:81-149 | they are at most as many as the entries of the secret, however indices collide |
| `LmkcdeySchedule.CloseRun` | src/binfhe/lib/rgsw-acc-lmkcdey.cpp:94-155 | a finished run has twist 1 and exponent 2N/q * sum s_i * o_i |
| `LmkcdeySchedule.EvalAcc` | src/binfhe/lib/rgsw-acc-lmkcdey.cpp:68-156 | for every window, secret and vector the schedule is one rotation by 2N/q * sum s_i * o_i, each o_i odd with (-a_i mod 2N) <= o_i <= (-a_i mod 2N) + 1, and f itself is untouched; the automorphisms in the trace of the accumulator obey the bound of RunSchedule |
| `LweBasics.InnerClose` | src/binfhe/lib/lwe-pke.cpp:241-249 | moving every entry by at most b moves the inner product by at most b times the 1-norm of the key |
| `LweBasics.SwitchValueSigned` | src/core/lib/math/hal/intnat/mubintvecnat.cpp:109-123 | re-embedding an entry into another modulus keeps the signed value it stands for |
| `LweBasics.SwitchValueIs` | src/core/lib/math/hal/intnat/mubintvecnat.cpp:109-123 | an entry v is stored as the residue of v up to half of its modulus and of v minus its modulus above it |
| `LweBasics.NegVectorInner` | src/binfhe/lib/rgsw-acc-cggi.cpp:66-69 | negating the vector modulo q negates the inner product |
| `Lwe.LWECiphertext.Copy` | src/binfhe/include/lwe-ciphertext.h:57-57 | a copy keeps vector, offset and modulus and falls back to plaintext modulus 4 |
| `Lwe.LWECiphertext.SetModulus` | src/binfhe/include/lwe-ciphertext.h:109-113 | every entry and the offset under the new modulus, and the phase kept modulo it when it divides the old one |
| `Lwe.EvalAddEq` | src/binfhe/lib/lwe-pke.cpp:213-216 | phases add modulo q, also when both arguments are the same object |
| `Lwe.AddValuesPhase` | src/binfhe/lib/lwe-pke.cpp:213-216 | the sum of two ciphertexts as values has the sum of the phases modulo q |
| `Lwe.EvalSubEq` | src/binfhe/lib/lwe-pke.cpp:222-225 | phases subtract modulo q |
| `Lwe.EvalSubEq2` | src/binfhe/lib/lwe-pke.cpp:227-230 | the second argument becomes first minus second |
| `Lwe.EvalAddConstEq` | src/binfhe/lib/lwe-pke.cpp:218-220 | a residue is added to the phase; any other constant is corrected once and may leave an offset of q or more |
| `Lwe.EvalSubConstEq` | src/binfhe/lib/lwe-pke.cpp:232-234 | the constant is subtracted from the phase |
| `Lwe.EvalMultConstEq` | src/binfhe/lib/lwe-pke.cpp:236-239 | the phase is multiplied by the constant |
| `Lwe.Encrypt` | src/binfhe/lib/lwe-pke.cpp:98-115 | the phase of a fresh ciphertext is the scaled message plus the drawn error, exactly modulo q |
| `Lwe.Decrypt` | src/binfhe/lib/lwe-pke.cpp:165-211 | the result is m if and only if the phase lies in the message window of m, which starts floor(q/2p) below it |
| `Lwe.RoundClose` | src/binfhe/lib/lwe-pke.cpp:40-46 | scale-and-round moves the scaled value by at most half a unit |
| `Lwe.RoundIs` | src/binfhe/lib/lwe-pke.cpp:42-46 | the rounding is d mod q for the d with 2vq - Q < 2Qd <= 2vq + Q |
| `Lwe.ModSwitch` | src/binfhe/lib/lwe-pke.cpp:241-249 | every entry is d mod q for the integer d with 2vq - Q < 2Qd <= 2vq + Q, so a tie goes up; the scaled phase moves by at most (1 + 1-norm of s)/2 modulo the new modulus |
| `KeySwitching.KeySwitchGen` | src/binfhe/lib/lwe-pke.cpp:252-319 | entry (i, j, k) is the drawn vector with a phase of exactly j * base^k * z_i plus the drawn error |
| `KeySwitching.KeySwitch` | src/binfhe/lib/lwe-pke.cpp:323-347 | for any table the phase under the small key is the phase under the long key minus the sum of the errors of the selected entries, exactly modulo qKS; the new vector depends on the old vector and the table alone |
| `KeySwitching.TableErrorsBounded` | src/binfhe/lib/lwe-pke.cpp:323-347 | that sum is at most one table error per digit and entry |
| `KeySwitching.KeySwitchClose` | src/binfhe/lib/lwe-pke.cpp:323-347 | the worst case: the phase is kept up to that many table errors |
| `KeySwitching.SwitchTo` | src/binfhe/lib/lwe-pke.cpp:153-161 | modulus switch, key switch, modulus switch compose to one closed bound on the phase; vector and offset are the composed functions |
| `KeySwitching.ChainEncodes` | src/binfhe/lib/lwe-pke.cpp:153-161 | the chain keeps what a ciphertext encodes, with the old error scaled down and the chain error added |
| `KeySwitching.ChainEncodesBack` | src/binfhe/lib/lwe-pke.cpp:153-161 | what the chain carried to an encoding was an encoding of the same message, up to the error of the chain |
| `KeySwitching.SwitchedChained` | src/binfhe/lib/lwe-pke.cpp:153-161 | the switched vector is a function of the vector and the table alone, and the phases before and after are chained |
| `KeySwitching.SwitchedOnto` | src/binfhe/lib/lwe-pke.cpp:153-161 | for q <= qKS <= Q every residue modulo q is the switched offset of some offset modulo Q, whatever the vector |
| `KeySwitching.EncodedDecodes` | src/binfhe/lib/lwe-pke.cpp:195-203 | an encoding with error below q/2p decrypts to its message |
| `KeySwitching.ErrorOfExact` | src/binfhe/lib/lwe-pke.cpp:195-203 | ErrorOf is the least error with which a phase encodes a message: Encodes holds with e if and only if ErrorOf <= e |
| `KeySwitching.FreshEncodes` | src/binfhe/lib/lwe-pke.cpp:109-114 | a fresh encryption encodes its message, with q mod p as slack when p does not divide q |
| `KeySwitching.EncryptDecrypt` | src/binfhe/lib/lwe-pke.cpp:98-211 | decrypting a fresh encryption returns the message |
| `KeySwitching.SwitchCTtoqn` | src/binfhe/lib/lwe-pke.cpp:153-161 | the result is small, modulo q, and chained to the input |
| `KeySwitching.DecryptSwitched` | src/binfhe/lib/lwe-pke.cpp:153-211 | decryption after switching returns the message whenever the total error is below q/2p |
| `Lookup.LookupExact` | src/binfhe/lib/binfhe-base-scheme.cpp:520-602 | for every F, coefficient 0 of the test vector turned by 2N/q * X is the tabulated value at b + X, or minus the value half of the circle away, exactly modulo Q |
| `Lookup.TableValueClose` | src/binfhe/lib/binfhe-base-scheme.cpp:520-602 | for F negacyclic up to a slack that value is F(b + X mod q) up to the slack |
| `Lookup.ExtractedPhase` | src/binfhe/lib/binfhe-base-scheme.cpp:107-119 | transposing the first half turns coefficient 0 of the ring phase into an LWE phase under the same key |
| `Bootstrapping.KeyGen` | src/binfhe/lib/binfhe-base-scheme.cpp:42-76 | the switching key and the accumulator key always fit the drawn ring key, the latter for the secret the accumulator uses; they are keys for one and the same secret when CGGI gets a ternary one |
| `Bootstrapping.EvalAcc` | src/binfhe/lib/binfhe-base-scheme.cpp:564-568 | whichever accumulator is configured, the test vector is turned by its rotation, within that accumulator noise |
| `Bootstrapping.LookupPointClose` | src/binfhe/lib/rgsw-acc-lmkcdey.cpp:81-84 | the table is read at the phase; LMKCDEY reads it within the 1-norm of the secret because it makes entries odd |
| `Bootstrapping.LookupPointExact` | src/binfhe/lib/binfhe-base-scheme.cpp:564-568 | the other two accumulators read it exactly at the phase |
| `Bootstrapping.LookupErrorBound` | src/binfhe/lib/rgsw-acc-lmkcdey.cpp:81-84 | the actual distance of the lookup point from the phase is at most the 1-norm of the secret for LMKCDEY and 0 otherwise |
| `Bootstrapping.ScaledAntiperiodic` | src/binfhe/lib/binfhe-base-scheme.cpp:591-595 | the table scaled by floor(Q/fmod) is negacyclic modulo Q only up to Q mod fmod |
| `Bootstrapping.ScaledExactly` | src/binfhe/lib/binfhe-base-scheme.cpp:591-595 | one pair of opposite values is scaled without defect if and only if they sum to 0 or fmod divides Q, for 0 < fmod <= Q |
| `Bootstrapping.ScaledExactlyIff` | src/binfhe/lib/binfhe-base-scheme.cpp:591-595 | the scaled table is exactly negacyclic if and only if fmod divides Q or every pair of opposite values sums to 0 |
| `Bootstrapping.ExtendedPhase` | src/binfhe/lib/binfhe-base-scheme.cpp:611-631 | the extracted phase is the tabulated value plus coefficient 0 of the accumulated error plus the offset, exactly modulo Q |
| `Bootstrapping.BootstrapFuncCore` | src/binfhe/lib/binfhe-base-scheme.cpp:574-609 | fills the test vector of f and turns it |
| `Bootstrapping.BootstrapFunc` | src/binfhe/lib/binfhe-base-scheme.cpp:611-631 | for every negacyclic f and every input the phase before switching is exactly the tabulated value plus the accumulated error; after switching it is f(lookup point) modulo fmod within a worst case independent of the input |
| `GateLogic.GateTruth` | src/binfhe/lib/rgsw-cryptoparameters.cpp:78-92 | the gate constants realise OR, AND, NOR, NAND, XOR, XNOR, MAJORITY, AND3, OR3, AND4 and OR4 as functions of the number of true inputs |
| `GateLogic.SwappedHalf` | src/binfhe/lib/binfhe-base-scheme.cpp:521-549 | the test with lb, ub and swapped values is membership in the half circle from the gate constant, swapped or not |
| `GateLogic.GateSide` | src/binfhe/lib/binfhe-base-scheme.cpp:521-551 | an input sum within the margin of the gate falls on the side its Boolean value names |
| `GateLogic.GateAntiperiodic` | src/binfhe/lib/binfhe-base-scheme.cpp:538-551 | the gate table is exactly negacyclic |
| `GateLogic.GateValueEncodes` | src/binfhe/lib/binfhe-base-scheme.cpp:112-116 | after adding Q/2p + 1 the two values encode 0 and 1 over p |
| `GateLogic.HalfGap` | src/binfhe/lib/binfhe-base-scheme.cpp:535-539 | half of the distance of the two values is the least integer above Q/2p |
| `GateLogic.BootstrapDecodes` | src/binfhe/lib/binfhe-base-scheme.cpp:193-223 | the output of Bootstrap decrypts modulo p to the bit looked up, for both bits and every refresh error up to e, if and only if BootstrapMargin(Q, p, e): |Q/8 - Q/2p| and e together fit the message windows |
| `GateLogic.BootstrapExamples` | src/binfhe/lib/binfhe-base-scheme.cpp:193-223 | at the 27-bit prime 134215681 the margin holds for p = 4 and 6 and fails for p = 12, where a false bit without any error is decrypted wrongly |
| `GateLogic.BootstrapReads` | src/binfhe/lib/binfhe-base-scheme.cpp:193-223 | bits encoded over p with error up to e are looked up as themselves, for both bits and every phase, if and only if ReadMargin(q, p, e); it fails for every p from 9 to q/8 |
| `GateLogic.RawIsGate` | src/binfhe/lib/binfhe-base-scheme.cpp:544-551 | from an offset below q the index loop tabulates the gate itself |
| `Gates.BootstrapGateCore` | src/binfhe/lib/binfhe-base-scheme.cpp:510-568 | the index loop builds the test vector of the gate, from any starting offset, and turns it |
| `Gates.GateRefresh` | src/binfhe/lib/binfhe-base-scheme.cpp:102-129 | core and extraction for any summed input: the phase is the side looked up plus the offset plus the accumulated error, exactly modulo Q |
| `Gates.GateCorrect` | src/binfhe/lib/binfhe-base-scheme.cpp:79-129 | the side looked up is the Boolean value of the gate whenever the actual error of the summed input plus the actual reading distance is inside the margin of the gate |
| `Gates.SumErrorBound` | src/binfhe/lib/binfhe-base-scheme.cpp:79-129 | the worst case bounds that actual error |
| `Gates.EvalBinGate` | src/binfhe/lib/binfhe-base-scheme.cpp:79-129 | for all inputs, of any error, small or large, the summed input is the sum of their small forms, and the output carries the bit looked up with an error that depends on the keys alone, and its exact phase before switching; the bit is the function of the gate when the actual summed error fits |
| `Gates.EvalBinGateVector` | src/binfhe/lib/binfhe-base-scheme.cpp:132-178 | the same for any number of inputs and any plaintext modulus of the first input, which the output takes over |
| `Gates.EvalCMUX` | src/binfhe/lib/binfhe-base-scheme.cpp:179-186 | three NANDs and a NOT: the output carries the recorded bit, which is the second input when the third is true and the first otherwise, whenever the errors that occurred in the run fit |
| `Gates.Bootstrap` | src/binfhe/lib/binfhe-base-scheme.cpp:193-223 | for inputs at either modulus and every p the phase before switching is exactly the value of BootstrapValue plus the accumulated error; for q divisible by 8 the bit looked up is the message when its actual error leaves it in QuarterMargin, and every error up to e is read if and only if QuarterMargin holds; for an input modulo Q the bit is a function of its vector and offset (LargeInputBit) |
| `Gates.BootstrapKeepsInput` | src/binfhe/lib/binfhe-base-scheme.cpp:193-223 | modulo q the bit looked up is the bit encoded over p whenever the actual error and reading distance are within ReadMargin |
| `Gates.OffsetLost` | src/binfhe/lib/binfhe-base-scheme.cpp:536-551 | with an offset of 3q/2 or more the loop never meets the half circle and the bit looked up does not depend on the offset |
| `GateLogic.QuarterReads` | src/binfhe/lib/binfhe-base-scheme.cpp:536-551 | with any constant c added, both bits encoded with error up to e are looked up as themselves, from every offset and for every distance the vector gives, if and only if QuarterMargin(c, q, e) |
| `GateLogic.QuarterModuli` | src/binfhe/lib/binfhe-base-scheme.cpp:203-204 | for Q >= q the quarter of Q meets that condition if and only if 2Q < 3q or 9q <= 2Q < 11q |
| `GateLogic.QuarterExamples` | src/binfhe/lib/binfhe-base-scheme.cpp:203-204 | q = 2048 with the prime Q = 12289 fails it, q = 8192 with the prime Q = 40961 meets it for errors up to 1023 |
| `Gates.ConstantReads` | src/binfhe/lib/binfhe-base-scheme.cpp:203-204 | the same for every vector, secret and accumulator, in terms of the point at which the table is read |
| `Gates.ConstantReadsPhases` | src/binfhe/lib/binfhe-base-scheme.cpp:203-204 | for DM and CGGI the same in terms of the phase |
| `Gates.RawIsOutput` | src/binfhe/lib/binfhe-base-scheme.cpp:536-551 | from a residue the raw lookup is the output of the gate |
| `Gates.LargeInputMisread` | src/binfhe/lib/binfhe-base-scheme.cpp:203-204 | where the condition fails, for q <= qKS <= Q, every vector modulo Q belongs to a ciphertext that carries a bit within the error of the switching chain and is looked up as the other bit |
| `Gates.LargeInputUnread` | src/binfhe/lib/binfhe-base-scheme.cpp:203-204 | for every vector modulo Q >= 10q and every table one of the two ciphertexts with phases 0 and Q/4 is looked up as the other bit |
| `Gates.QuarterOfInput` | src/binfhe/lib/binfhe-base-scheme.cpp:204-204 | adding a quarter of the modulus of the input is adding a quarter of q if and only if the two quarters coincide |
| `Gates.EvalNOT` | src/binfhe/lib/binfhe-base-scheme.cpp:226-240 | the phase becomes floor(q/4) minus the phase under every key, at either modulus; the message is negated, exactly when 4 divides the modulus and within one unit otherwise |
| `Circuits.VectorGate` | src/binfhe/lib/rgsw-cryptoparameters.cpp:84-89 | AND3 and AND4 are conjunctions, OR3 and OR4 disjunctions, MAJORITY the median of three |
| `Circuits.EvalCircuit` | src/binfhe/lib/binfhe-base-scheme.cpp:79-240 | every circuit of two-input gates, NOT, MAJORITY and CMUX, of every size and depth, on inputs modulo q or Q: the run is recorded node by node, negations modulo Q included, each refreshed ciphertext carries the bit looked up within the worst case, and the run follows the circuit |
| `Circuits.RunCorrect` | src/binfhe/lib/binfhe-base-scheme.cpp:79-240 | if the worst error that occurred at any node and the worst reading distance fit an eighth of q, the recorded bit is the value of the circuit, for every circuit and input |
| `Circuits.NodeEncodes` | src/binfhe/lib/binfhe-base-scheme.cpp:79-240 | every node of a run, brought to q, encodes its bit within the worst error of the run |
| `Circuits.LargeEncodes` | src/binfhe/lib/binfhe-base-scheme.cpp:226-240 | however often an input modulo Q is negated there, it encodes its bit with its own error and at most one unit more |
| `Circuits.PairCorrect` | src/binfhe/lib/binfhe-base-scheme.cpp:79-129 | a two-input refresh of such a run computes its gate |
| `Circuits.SelectCorrect` | src/binfhe/lib/binfhe-base-scheme.cpp:179-186 | three NANDs and a NOT of such a run select |
| `Circuits.RoomyFits` | src/binfhe/lib/binfhe-base-scheme.cpp:79-240 | parameters whose worst case leaves room make every run fit |
| `Circuits.DecryptCircuit` | src/binfhe/lib/binfhe-base-scheme.cpp:79-240 | decrypting the evaluated circuit gives its value whenever the errors that occurred fit |
| `FunctionEval.CheckInputFunction` | src/binfhe/include/binfhe-base-scheme.h:245-260 | the classification, with both directions of every case; a periodic table starting with half of the modulus counts as arbitrary |
| `FunctionEval.PeriodicKind` | src/binfhe/include/binfhe-base-scheme.h:245-260 | a periodic table is classified as periodic if and only if it does not start with half of the modulus, as negacyclic if and only if all entries are that half, and as arbitrary otherwise |
| `FunctionEval.PeriodicEvaluable` | src/binfhe/lib/binfhe-base-scheme.cpp:262-266 | so a periodic table is evaluated if and only if it does not start with half of the modulus, or all entries are that half, or q <= N; otherwise the source throws |
| `FunctionEval.MeasuredBootstrap` | src/binfhe/lib/binfhe-base-scheme.cpp:611-631 | one bootstrap with its actual reading point and error, neither beyond its worst case, for all accumulators |
| `FunctionEval.EvalNegacyclic` | src/binfhe/lib/binfhe-base-scheme.cpp:252-260 | one bootstrap reads the table at phase + beta within the reading distance, exactly there for DM and CGGI |
| `FunctionEval.FoldHalf` | src/binfhe/lib/binfhe-base-scheme.cpp:310-321 | bootstrap, subtraction and the two constants leave phase + beta minus the actual folding value and a quarter |
| `FunctionEval.FoldedPhase` | src/binfhe/lib/binfhe-base-scheme.cpp:310-327 | when phase + beta is clear of the half circle ends by the actual error, what the second bootstrap gets is its residue modulo half of the circle, off by that error |
| `FunctionEval.SecondReading` | src/binfhe/lib/binfhe-base-scheme.cpp:310-331 | the second table is then read within the actual displacement of that residue |
| `FunctionEval.EvalPeriodic` | src/binfhe/lib/binfhe-base-scheme.cpp:309-331 | the table is read within the actual displacement of phase + beta, whenever that is clear of the half circle ends by as much |
| `FunctionEval.EvalArbitrary` | src/binfhe/lib/binfhe-base-scheme.cpp:262-307 | for every accumulator whose keys serve 2q: raising q to 2q adds an unknown multiple of q that the first bootstrap folds away; the table is read within the actual displacement of phase + beta |
| `FunctionEval.EvalFunc` | src/binfhe/lib/binfhe-base-scheme.cpp:244-332 | all three branches and all accumulators: the result is the table near phase + beta, off by the displacement and error that occurred, both within the worst case; exactly at phase + beta for negacyclic tables under DM and CGGI |
| `FunctionEval.GenerateLUTviaFunction` | src/binfhe/lib/binfhecontext.cpp:366-381 | entry i is q/p * f(floor(i*p/q), p); rejected if and only if some entry reaches q |
| `FunctionEval.LutEntryIs` | src/binfhe/lib/binfhecontext.cpp:366-381 | entry i is q/p times the value at the m with mq <= ip < mq + q |
| `FunctionEval.IntervalOf` | src/binfhe/lib/binfhecontext.cpp:374-378 | every index of the interval of m reads the value at m |
| `FunctionEval.EvalPlaintextFunction` | src/binfhe/lib/binfhecontext.cpp:366-381 | for every plaintext function and message, evaluating its table on an encryption of m encrypts f(m) whenever m stays centred by the displacement that occurred |
| `Flooring.MiddleNegacyclic` | src/binfhe/lib/binfhe-base-scheme.cpp:361-370 | the second function is negacyclic around the middle half of the circle |
| `Flooring.FirstSubtraction` | src/binfhe/lib/binfhe-base-scheme.cpp:347-357 | after the first subtraction the residue lies in [q/4, 3q/4), clear by what the actual error leaves of D, and the multiple of q is unchanged |
| `Flooring.FloorResult` | src/binfhe/lib/binfhe-base-scheme.cpp:347-377 | if phase + beta is clear of every multiple of q/2 by the reach of the run, both subtractions leave q * floor((phase + beta)/q) plus the actual second error and reading shift |
| `Flooring.FloorMessage` | src/binfhe/lib/binfhe-base-scheme.cpp:335-377 | with p messages at scale 2beta to a block of q, the block of message m is the one numbered floor(m / p), whenever the errors that occurred stay below beta |
| `Flooring.EvalFloor` | src/binfhe/lib/binfhe-base-scheme.cpp:335-377 | for all accumulators the output phase is exactly phase + beta minus the two actual bootstrap values, and so q * floor((phase + beta)/q) within the actual second error and shift, whenever the reach of the run leaves the phase clear; q is the parameter for roundbits = 0 and beta * 2^(k+1) for k = roundbits > 0, where a message m at scale 2beta becomes 2beta * 2^k * floor(m / 2^k) |
| `Flooring.DecryptFloor` | src/binfhe/unittest/UnitTestFunc.cpp:70-93 | rounding off k bits and decrypting modulo what is left returns floor(m / 2^k) whenever the errors that occurred fit |
| `LargePrecision.NextModulus` | src/binfhe/lib/binfhe-base-scheme.cpp:403-406 | both loops compute the same smaller modulus; it stays on the grid and shrinks by exactly p = q/2beta |
| `LargePrecision.Shrunk` | src/binfhe/lib/binfhe-base-scheme.cpp:407-407 | rounding a floored phase to the smaller modulus divides its grid point by p |
| `LargePrecision.FloorStep` | src/binfhe/lib/binfhe-base-scheme.cpp:403-407 | one loop step with the base in use records its actual floor errors, its reading shifts and its rounded phase, for any input and any accumulator |
| `LargePrecision.StepOnGrid` | src/binfhe/lib/binfhe-base-scheme.cpp:403-407 | a step whose actual errors and shifts fit takes an encoding of m at scale 2beta to one of floor(m/p), with the next actual error |
| `LargePrecision.RunOnGrid` | src/binfhe/lib/binfhe-base-scheme.cpp:401-430 | after k steps of a run that fits the phase encodes floor(m/p^k) on the grid of mod/p^k |
| `LargePrecision.BaseKept` | src/binfhe/lib/binfhe-base-scheme.cpp:409-427 | choosing the base by the size of the new modulus, or keeping it, follows one closed description of the base at each modulus |
| `LargePrecision.BudgetFits` | src/binfhe/lib/binfhe-base-scheme.cpp:401-430 | if the worst case at the visited pairs of base and modulus fits, every run fits |
| `LargePrecision.FreshOnGrid` | src/binfhe/lib/lwe-pke.cpp:109-114 | a fresh encryption of one of mod/2beta messages meets the precondition of the loops |
| `LargePrecision.BinLogsAgree` | src/binfhe/lib/binfhe-base-scheme.cpp:411-411 | the two ways of measuring the modulus agree on powers of two |
| `LargePrecision.BaseBySize` | src/binfhe/lib/binfhe-base-scheme.cpp:409-427 | a dynamic run uses base 2^27 at moduli up to 2^17, base 2^18 from there to 2^26 and its start base above that and at the start |
| `SignEvaluation.SelectBase` | src/binfhe/lib/binfhe-base-scheme.cpp:409-427 | with three keys the base becomes 2^27 up to 17 bits and 2^18 from 18 to 26 bits; above that, or without three keys, it is unchanged; the key in use always belongs to it |
| `SignEvaluation.TopBit` | src/binfhe/lib/binfhe-base-scheme.cpp:431-434 | the half of the circle the last message lies in is the top bit of the first |
| `SignEvaluation.ReachedModulus` | src/binfhe/lib/binfhe-base-scheme.cpp:403-406 | the moduli of a run shrink by p each |
| `SignEvaluation.SignCorrect` | src/binfhe/lib/binfhe-base-scheme.cpp:380-448 | if the actual errors and shifts of the run fit, its final phase shows the top bit of the message, for every message |
| `SignEvaluation.SignFitsExact` | src/binfhe/lib/binfhe-base-scheme.cpp:380-448 | for DM and CGGI the steps alone decide whether a run fits |
| `SignEvaluation.BudgetSign` | src/binfhe/lib/binfhe-base-scheme.cpp:380-448 | if the worst case at the visited pairs fits, every run fits and its result decrypts |
| `SignEvaluation.EvalSign` | src/binfhe/lib/binfhe-base-scheme.cpp:380-448 | for every accumulator whose keys serve the final modulus, the run is recorded step by step with the bases it used; if its actual errors fit, the result encrypts the top bit for every message; base, digit count and power table are as before; terminates |
| `SignEvaluation.DecryptSign` | src/binfhe/lib/binfhe-base-scheme.cpp:380-448 | decrypting modulo 2 returns the top bit whenever the errors that occurred fit |
| `DigitDecomposition.DigitsRecompose` | src/binfhe/lib/binfhe-base-scheme.cpp:475-506 | k digits and the quotient above them recompose the number |
| `DigitDecomposition.DigitShown` | src/binfhe/lib/binfhe-base-scheme.cpp:475-500 | digit k of a run that fits carries floor(m/p^k) mod p within the worst actual error |
| `DigitDecomposition.DecompCorrect` | src/binfhe/lib/binfhe-base-scheme.cpp:451-507 | a whole run that fits carries all digits and the rest |
| `DigitDecomposition.EvalDecomp` | src/binfhe/lib/binfhe-base-scheme.cpp:451-507 | for all accumulators one ciphertext per loop step and one more, related to the recorded run; if its errors fit they carry floor(m/p^i) mod p and the rest; state restored |
| `DigitDecomposition.DecryptDecomp` | src/binfhe/lib/binfhe-base-scheme.cpp:451-507 | decrypting all digits and weighting them by powers of p returns the message whenever the errors that occurred fit |
| `KeyMaps.SignTablesReady` | src/binfhe/lib/rgsw-cryptoparameters.cpp:49-67 | tables built for sign evaluation are usable by BTKeyGen whenever Q exceeds 2^27 |
| `KeyMaps.BTKeyGen` | src/binfhe/lib/binfhecontext.cpp:281-302 | for any earlier key map: with time optimisation the key of every tabulated base is replaced; without it, or when no base is tabulated, a key is generated if and only if the map is empty, and then it serves the secret; all other keys stay; a key that is not generated is the stored one whatever secret it has, else an unusable one; the base is restored |
| `EndToEnd.CircuitRun` | src/binfhe/lib/binfhe-base-scheme.cpp:42-240 | generating a first key without time optimisation, encrypting bits, evaluating any circuit and decrypting gives the value of the circuit whenever the errors that occurred fit, for every draw and all three accumulators; always when the worst case leaves room |
| `EndToEnd.VectorRun` | src/binfhe/lib/binfhe-base-scheme.cpp:132-178 | encrypting bits over the plaintext modulus of AND3, OR3, AND4, OR4 or MAJORITY, evaluating that gate and decrypting modulo the same gives the conjunction, disjunction or majority, if the fresh errors fit the margin of the gate and the refreshed error that occurred is below q/2p |
| `EndToEnd.SignRun` | src/binfhe/lib/binfhe-base-scheme.cpp:380-448 | generating the key map, encrypting a large message, evaluating its sign and decrypting gives the top bit whenever the errors that occurred fit; always when the worst case at the visited bases fits |
| `EndToEnd.SignExample` | src/binfhe/lib/binfhe-base-scheme.cpp:380-448 | the sign budget, which asks for a key at every base the run visits, is met by every ternary key and errors up to 1 for one dynamic run that uses the bases 2^14, 2^18 and 2^27 |
| `EndToEnd.RoomyExample` | src/binfhe/lib/binfhe-base-scheme.cpp:79-129 | the worst-case gate budget is met by every ternary key and all errors up to 19 for one explicit parameter choice with a 50-bit prime Q |

## Left out

- Bootstrapping.BootstrapFunc: for the DM and LMKCDEY accumulators only ciphertexts modulo the parameter q are covered, because their keys have 2N/q built in; CGGI covers every even modulus dividing 2N.
- FunctionEval.EvalFunc: for the DM and LMKCDEY accumulators the modulus the bootstraps run at (q, or 2q for arbitrary tables) must be the parameter q their keys were made for; the source does not check it.
- Flooring.EvalFloor: only for input moduli that the floor modulus divides.
- SignEvaluation.EvalSign: DM and LMKCDEY keys serve a final bootstrap at q only, so there the loop has to end at q (`KeysServe`); power-of-two moduli; the keys for the bases a dynamic run may choose are a precondition, where the source throws.
- DigitDecomposition.EvalDecomp: power-of-two moduli and keys for the bases a dynamic run may choose, as for EvalSign.
- Gates.Bootstrap: for q = 4, the only modulus that 8 does not divide, the bit is given by the recorded lookup, with no statement in terms of the message.
- Gates.EvalCMUX: a method of its own rather than a branch of the vector gate.
- LmkcdeySchedule.Sweep: one method for the two loops of the source, which differ in the sign of the bucket only.
- Accumulator.MultiplyIntoAcc: one method for AddToAccDM and AddToAccLMKCDEY, whose bodies agree.
- Flooring.SubtractFunc: one method for the two bootstrap-and-subtract halves of EvalFloor.
- AccumulatorDM.KeyGenAcc: secret moduli of 2^31 and more, which the source converts to 32 bits.
- Lwe.ModSwitch: rounds exactly where the source computes in double precision.
- RgswParams.DigitCount: the least sufficient digit count where the source rounds up a ratio of logarithms.
- Random generators, security level and failure probability: draws are arbitrary inputs with a bound.
- Number-theoretic transforms and the switches between evaluation and coefficient format: identities on ring elements; stored elements are reduced modulo Q.
- OpenMP pragmas: iterations are independent and run in order here. AddToAccCGGI is computed column by column.
- Thrown exceptions: preconditions, except for the table generator, whose rejection is a result.
- Public-key encryption, public key generation and noiseless embedding: the same phase argument as symmetric encryption.
- Serialization, printing, parameter-set tables, prime search, benchmarks and examples: no property of this kind.
