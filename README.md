# Zerocoin accumulator and accumulator witness, in Dafny

This project models `libzerocoin::Accumulator` and `libzerocoin::AccumulatorWitness` (src/zerocoin/Accumulator.cpp)
and proves their properties.

- An **Accumulator** has a fixed denomination. It holds one big-integer value per RSA-style modulus. There are
  `UFO_COUNT` moduli, and each one is called a lane here.
  - It is built from the trusted-setup parameter object by copying that object's accumulator bases in order.
  - Accumulating a coin first runs three checks, in a fixed order: the accumulator is filled, the denomination
    matches, and the coin validates. Then every lane `i` becomes `value[i]^coin.value mod accumulatorModuli[i]`.
- An **AccumulatorWitness** holds an owned copy of a checkpoint accumulator and one excluded coin.
  - Every other coin can be folded into the copy. Offering the excluded coin is a silent no-op.
  - `verifyWitness` folds the excluded coin into a temporary copy. It then asks for equal values and for the
    same coin.

Layout:

- `mod_arith.dfy` (module `ModArith`): `Pow` and `PowMod` (the meaning of `Bignum::pow_mod`). It proves that two
  modular exponentiations compose into one, `(b^x mod m)^y mod m == b^(x*y) mod m`, and therefore commute.
- `accumulator.dfy` (module `Zerocoin`): the data model (coin, parameter object, error kinds) and the
  specification functions.
  - `AccumulateGuard` gives the three checks in source order. `Accumulated` gives the whole `accumulate`.
  - `WitnessAdded` gives `addElement`. `Verified` gives `verifyWitness`.
  - The two classes, with their fields updated in place. `value` is a `seq<nat>` field rewritten lane by lane in
    a loop.
- `accumulator_theory.dfy` (module `ZerocoinTheory`): folding a whole run of coins.
  - The closed form: every lane raised to the product of the coin values.
  - Order independence: any permutation of the coins gives the same values.
  - The witness round trip, and the worked scenarios with coins 3, 5 and 7 and with two moduli.

Exceptions become values. Each error kind is an `Error`:

- `InvalidParameters`
- `NotInitialized`
- `DenominationMismatch(expected, got)`
- `InvalidCoin`
- `IndexOutOfRange`

Operations that return nothing or throw return an `Outcome` (`Pass` or `Fail(error)`). Operations that return a
value or throw return a `Result`. Construction can throw, so it is the static method `Accumulator.Create`, which
returns `Result<Accumulator>`.

## Model

| member | source | states |
|---|---|---|
| `ModArith.PowMod` | src/zerocoin/Accumulator.cpp:62 | pow_mod yields a residue of the lane's modulus |
| `ModArith.PowModCompose` | src/zerocoin/Accumulator.cpp:59-63 | raising to x then to y modulo m equals raising to x*y modulo m |
| `ModArith.PowModCommutes` | src/zerocoin/Accumulator.cpp:59-63 | two modular exponentiations of a lane commute |
| `Zerocoin.AccumulateGuard` | src/zerocoin/Accumulator.cpp:38-55 | each error means exactly its condition under the earlier checks: NotInitialized iff value is empty; DenominationMismatch (naming both denominations) iff filled and the denominations differ; InvalidCoin iff filled, same denomination and validate() false; success iff all three pass |
| `Zerocoin.RaiseLanes` | src/zerocoin/Accumulator.cpp:61-63 | the lane loop's result: one value per old lane, each below its lane's positive modulus, with the lane count kept |
| `Zerocoin.Accumulated` | src/zerocoin/Accumulator.cpp:37-63 | fails exactly when a check fails, with that check's error; otherwise every lane i becomes value[i]^coin.value mod modulus[i], from its own old value and modulus only, and the lane count is kept |
| `Zerocoin.WitnessAdded` | src/zerocoin/Accumulator.cpp:96-100 | the excluded coin leaves the witness value as it was and cannot fail; any other coin behaves exactly as accumulate, failures included |
| `Zerocoin.Verified` | src/zerocoin/Accumulator.cpp:110-114 | throws exactly when folding the excluded coin throws; true iff folding the excluded coin into the witness gives the accumulator's values and the presented coin is the excluded one |
| `Zerocoin.Accumulator.FromParams` | src/zerocoin/Accumulator.cpp:21-30 | the value is the parameter object's bases, in order, appended one by one |
| `Zerocoin.Accumulator.Copy` | src/zerocoin/Accumulator.cpp:111 | the copy has the same parameters, denomination and values, and keeps the shape invariant |
| `Zerocoin.Accumulator.Create` | src/zerocoin/Accumulator.cpp:21-35 | fails with InvalidParameters iff the parameters are uninitialized or do not give exactly UFO_COUNT bases; on success a fresh accumulator with the bases in order and exactly UFO_COUNT lanes |
| `Zerocoin.Accumulator.Accumulate` | src/zerocoin/Accumulator.cpp:37-68 | returns the first failing check in source order and then leaves value unchanged; otherwise each lane i is old lane i raised to the coin value mod modulus i; lane count, UFO_COUNT shape and denomination are preserved |
| `Zerocoin.Accumulator.GetDenomination` | src/zerocoin/Accumulator.cpp:70-72 | returns the fixed denomination |
| `Zerocoin.Accumulator.GetValue` | src/zerocoin/Accumulator.cpp:74-76 | returns the whole value sequence |
| `Zerocoin.Accumulator.GetValueAt` | src/zerocoin/Accumulator.cpp:78-80 | the lane at idx when idx is below the lane count, IndexOutOfRange otherwise |
| `Zerocoin.Accumulator.AddCoin` | src/zerocoin/Accumulator.cpp:82-85 | operator+= has exactly accumulate's outcome and effect |
| `Zerocoin.Accumulator.Equals` | src/zerocoin/Accumulator.cpp:87-89 | true iff the two value sequences have the same length and agree lane by lane; the denomination plays no part |
| `Zerocoin.AccumulatorWitness.constructor` | src/zerocoin/Accumulator.cpp:92-94 | an owned, fresh copy of the checkpoint (same parameters, denomination, values) and the excluded coin; nothing checked |
| `Zerocoin.AccumulatorWitness.AddElement` | src/zerocoin/Accumulator.cpp:96-100 | the excluded coin is a no-op that succeeds; any other coin gives accumulate's outcome on the owned copy; on failure nothing changes |
| `Zerocoin.AccumulatorWitness.GetValue` | src/zerocoin/Accumulator.cpp:102-104 | the owned accumulator's value sequence |
| `Zerocoin.AccumulatorWitness.GetValueAt` | src/zerocoin/Accumulator.cpp:106-108 | the owned accumulator's lane at idx, IndexOutOfRange past the last lane |
| `Zerocoin.AccumulatorWitness.VerifyWitness` | src/zerocoin/Accumulator.cpp:110-114 | the outcome is Verified of the witness state; the witness is not modified (no modifies clause); a coin other than the excluded one is never accepted |
| `Zerocoin.AccumulatorWitness.AddCoin` | src/zerocoin/Accumulator.cpp:116-120 | operator+= has exactly addElement's outcome and effect |
| `ZerocoinTheory.AccumulateCommutes` | src/zerocoin/Accumulator.cpp:59-63 | accumulating valid coins x then y gives the same values as y then x |
| `ZerocoinTheory.FoldSeq` | src/zerocoin/Accumulator.cpp:82-85 | repeated `+=` over a run of coins, stopping at the first thrown error; a successful run keeps the lane count and a modulus for every lane |
| `ZerocoinTheory.WitnessFoldSeq` | src/zerocoin/Accumulator.cpp:116-120 | repeated witness `+=` over a run of coins, stopping at the first thrown error; a successful run keeps the lane count and a modulus for every lane |
| `ZerocoinTheory.FoldSeqAppend` | src/zerocoin/Accumulator.cpp:37-63 | accumulating a run a+b is accumulating a and then b; an error in a is the error of the whole run |
| `ZerocoinTheory.FoldSeqOkIff` | src/zerocoin/Accumulator.cpp:38-55 | a run of coins is accumulated without error iff the accumulator is filled (or the run is empty) and every coin has the accumulator's denomination and validates |
| `ZerocoinTheory.FoldSeqClosedForm` | src/zerocoin/Accumulator.cpp:59-63 | after a non-empty run every lane is its start value raised to the product of the coin values, modulo its own modulus |
| `ZerocoinTheory.FoldSeqAccepted` | src/zerocoin/Accumulator.cpp:59-63 | a non-empty run of accepted coins into a filled accumulator succeeds with every lane raised to the product of the coin values |
| `ZerocoinTheory.FoldSeqPermutation` | src/zerocoin/Accumulator.cpp:59-63 | any rearrangement of a run that succeeds also succeeds, with identical values: only the multiset of coins matters |
| `ZerocoinTheory.WitnessFoldIsFoldWithout` | src/zerocoin/Accumulator.cpp:96-100 | offering a witness a run of coins ends exactly where accumulating the run with every copy of the excluded coin removed ends |
| `ZerocoinTheory.OwnCoinNeverFolded` | src/zerocoin/Accumulator.cpp:96-100 | offering the excluded coin any number of times leaves the witness value unchanged and never fails |
| `ZerocoinTheory.WitnessRoundTrip` | src/zerocoin/Accumulator.cpp:110-114 | an accumulator and a witness for e start from the same checkpoint and take the same successful run of coins, holding e exactly once; then the witness tracks without error and verifyWitness(accumulator, e) is true |
| `ZerocoinTheory.ScenarioSingleModulus` | src/zerocoin/Accumulator.cpp:59-63 | with one modulus, coins 3, 5, 7 in either order [3,5,7] or [7,3,5] give b^105 mod m |
| `ZerocoinTheory.ScenarioWitness` | src/zerocoin/Accumulator.cpp:96-114 | the witness for 5 among 3, 5, 7 holds b^21 mod m and verifies against b^105 mod m |
| `ZerocoinTheory.ScenarioTwoModuli` | src/zerocoin/Accumulator.cpp:61-63 | with two moduli, coin 9 raises each lane under its own base and modulus, without cross-contamination |

## Left out

- The timing and debug output around the exponentiation loop (src/zerocoin/Accumulator.cpp:57-58, 60, 64-67).
  It is clock reading and console output and has no effect on state.
- The text of exception messages. Only the error kind is kept. A denomination mismatch carries both
  denominations as payload.
- `Bignum` representation and the `pow_mod` algorithm. Lanes, bases, moduli and coin values are natural numbers,
  and `pow_mod` is `Pow(b, e) % m`. Negative Bignum values do not occur in the model.
- `PublicCoin::validate()` is external. Every operation that folds a coin takes it as the total function
  parameter `isValid`. `CoinDenomination` is its face value (`nat`); only equality is used.
- `UFO_COUNT` is defined in a header that is not part of this model. It is an unspecified constant of at least one.
- Zerocoin.Accumulator.Create: requires initialized parameters to have exactly `UFO_COUNT` positive moduli. This is
  the trusted-setup guarantee, taken as given and not checked by the source.
  - `Zerocoin.Accumulator.Accumulate`, `Zerocoin.AccumulatorWitness.AddElement` and
    `Zerocoin.AccumulatorWitness.VerifyWitness` inherit this assumption through `Valid()`.
  - The model therefore does not capture the case of fewer moduli than lanes. There,
    `accumulatorModuli.at(i)` (src/zerocoin/Accumulator.cpp:62) throws `std::out_of_range` partway through the
    loop, after earlier lanes were already rewritten, so the update is not all-or-nothing.
  - It also does not capture `pow_mod` with a zero modulus.
- Zerocoin.PublicCoin equality is assumed to be structural: equal commitment value and equal denomination.
  `PublicCoin::operator==` and `operator!=` are declared in a header that is not part of this model.
  - `addElement` (src/zerocoin/Accumulator.cpp:97) and `verifyWitness` (src/zerocoin/Accumulator.cpp:113) use them.
  - If the real operator compares only the commitment value, the source differs on a coin that has the excluded
    coin's value but another denomination. `addElement` would skip it silently where the model returns
    `DenominationMismatch`. `verifyWitness` would accept it where the model returns false.
- `Accumulator.Valid` admits an empty value sequence, so that the NotInitialized check is reachable. The
  default-constructed and deserialised accumulators that could have one are declared outside this file and are
  not part of this model.
- The `params` pointer stored by `AccumulatorWitness` (src/zerocoin/Accumulator.cpp:92-93) is unused and is not
  modelled.
- `ZerocoinTheory.WitnessRoundTrip` requires the excluded coin to occur exactly once in the accumulated run.
  `addElement` skips every copy of it, while the accumulator folds every copy, so the round trip fails when the
  coin was accumulated twice.
- A stale accumulator that omits a coin the witness has tracked is rejected by `verifyWitness` only under the
  hardness assumption on the moduli. The integers modulo m can collide, so no all-inputs lemma states this.
- Concurrency: the source runs sequentially and takes no locks, and the model does the same.
