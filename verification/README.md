# probability-branch in Dafny

This project models the two stateful parts of the `probability-branch` library:

- **The Mersenne Twister** (`twister.dfy`, module `Twister`). This is the 32-bit MT19937 generator behind random runs.
  - Class `MersenneTwister` holds the 624-word register as an `array<bv32>` and the cursor `mti`.
  - Seeding (`init_genrand`) fills the register with the seeding recurrence.
  - `randomInt` regenerates the register in place once the cursor reaches 624, then tempers the word at the cursor and advances the cursor.
  - `random` scales the word into [0, 1).
  - Each method is proved against a specification on values:
    - `SeededBy` for seeding;
    - `TwistPrefix` / `Twisted` for the in-place regeneration;
    - `Next` / `Stream` for the sequence of draws.
  - The lemmas connect the specification to the generator's defining properties: the register is determined by the seed, the regeneration is the MT19937 linear recurrence, and between regenerations the output is the tempered register read in order.
- **The weighted selector** (`probability_branch.dfy`, module `Branch`). Class `ProbabilityBranch<H>` keeps the same fields as the source:
  - `sum`, the parallel lists `probabilities` and `handlers`, `count` and `limit`;
  - handlers are opaque values of type `H`;
  - "entering" a branch means returning its index and handler.
  - `Add` validates and appends a weight. `Run` draws or takes a probability and walks the cumulative weights. `Clear` empties the selector once its limit is used up.
  - Selection is specified by `Pick` and characterised by `IsSelection`: the first branch whose cumulative weight exceeds the probability, or else the last one.
  - The class invariant `Valid` states the following, and every operation preserves it:
    - the lists have equal lengths;
    - weights are in (0, MAX_NUM];
    - `sum` is their total;
    - `count <= limit` under a positive limit.

Weights and probabilities are exact reals. The selector's generator is passed to `Run` as a parameter. In the source, `run` reads a static `ProbabilityBranch.generator` that the class never declares (src/probability-branch.ts:92); the module-level `gen` (line 5) serves only the registry functions.

`Run` uses the run-limit guard "refuse when `limit > 0 && count >= limit`". Line 103 of src/probability-branch.ts tests `limit >= count` instead (see Findings).

The source order of the checks is kept: emptiness (line 99) comes before the limit (line 103). Because `clear` has already emptied a selector whose positive limit is used up, the next run of such a selector returns `NotSelected`. It fails with `RunLimitExceeded` only if branches were added again (`Branch.LimitTwo`).

## Model

| member | source | states |
|---|---|---|
| Twister.Low32 | src/mersenne-twister.ts:16 | the seed word is the one value in [0, 2^32) congruent to the seed modulo 2^32 |
| Twister.SeedReference | src/mersenne-twister.ts:19 | the seeding recurrence gives words 1 to 5 of the MT19937 reference register for seed 5489 (1301868182, 2938499221, 2950281878, 1875628136, 751856242) |
| Twister.SeededWordsAgree | src/mersenne-twister.ts:16-20 | two registers produced from the same seed agree at every position, by induction along the recurrence |
| Twister.SeedDeterminesRegister | src/mersenne-twister.ts:15-21 | the seed alone determines the whole seeded register |
| Twister.MersenneTwister.constructor | src/mersenne-twister.ts:8-13 | a new generator holds the register seeded with `seed` (word 0 is the seed mod 2^32, each later word follows from its predecessor by the recurrence), and its cursor is 624 |
| Twister.MersenneTwister.InitGenrand | src/mersenne-twister.ts:15-21 | the loop fills the array in place so that it satisfies the seeding recurrence, and leaves the cursor at 624 |
| Twister.MersenneTwister.Twist | src/mersenne-twister.ts:27-47 | the three `kk` loops together leave the array equal to one sequential in-place pass over positions 0..623 (`Twisted` of the old contents) and reset the cursor to 0 |
| Twister.MixSplice | src/mersenne-twister.ts:30-45 | the twist of one position depends only on the top bit of the current word and the low 31 bits of the next one, and the far word enters only through a final xor |
| Twister.MixTopBit | src/mersenne-twister.ts:30-45 | with the far word xored out, the top bit of a twisted word is the low bit of the next word, which is what selects the MATRIX_A term |
| Twister.TwistPrefixAt | src/mersenne-twister.ts:29-45 | after the first k steps of the in-place pass, positions below k already hold their final regenerated value and the others still hold the old one |
| Twister.TwistIsRecurrence | src/mersenne-twister.ts:27-47 | old register followed by the regenerated register satisfies the MT19937 recurrence x[k+624] = Mix(x[k], x[k+1], x[k+397]) for every k < 624 |
| Twister.TemperReference | src/mersenne-twister.ts:50-55 | one twist step and tempering of the seeded words for seed 5489 give the first five MT19937 reference outputs 3499211612, 581869302, 3890346734, 3586334585, 545404204 |
| Twister.Scale | src/mersenne-twister.ts:58-61 | the scaled word lies in [0, 1), never 1, and times 2^32 gives back the word exactly |
| Twister.Next | src/mersenne-twister.ts:23-56 | one draw regenerates exactly when the cursor has reached 624, leaves the register unchanged otherwise, advances the cursor by one (to 1 after a regeneration) and returns the tempered word at the new cursor minus one (position 0 of the regenerated register after a regeneration) |
| Twister.StreamReadsRegister | src/mersenne-twister.ts:27-55 | as long as the cursor stays below 624, the i-th drawn word is the tempered register word at cursor + i |
| Twister.NextRegenerates | src/mersenne-twister.ts:27-49 | from cursor 624 (the state right after seeding) a draw regenerates the register first and returns its tempered first word with cursor 1 |
| Twister.BlockAfterRegeneration | src/mersenne-twister.ts:27-55 | from cursor 624 the next up to 624 draws are the tempered regenerated register, in order |
| Twister.SameSeedSameStream | src/mersenne-twister.ts:11-21 | two registers seeded with the same value produce the same stream of words |
| Twister.MersenneTwister.RandomInt | src/mersenne-twister.ts:23-56 | the method returns the word `Next` gives for the old state and leaves register and cursor as `Next` says |
| Twister.MersenneTwister.Random | src/mersenne-twister.ts:58-61 | the result lies in [0, 1) and is the scaled next word, with the generator advanced exactly as by `RandomInt` |
| Twister.SameSeedSameDraws | src/mersenne-twister.ts:11-56 | two generator objects built from the same seed hand out the same `n` words |
| Branch.Pick | src/probability-branch.ts:109-123 | the selected index is always in range |
| Branch.PickIsSelection | src/probability-branch.ts:109-123 | no cumulative weight up to the picked branch exceeds p; the cumulative weight through it does, unless it is the last branch (the fallback) |
| Branch.SelectionIsPick | src/probability-branch.ts:109-123 | an index satisfies the selection rule exactly when it is `Pick`, so the rule has one answer |
| Branch.Select | src/probability-branch.ts:109-121 | the cumulative loop with strict `p < cumulative` and the last-branch fallback returns `Pick(ws, p)` |
| Branch.DrawnProbabilityNeverFallsBack | src/probability-branch.ts:92-113 | a probability drawn as x * sum with x in [0, 1) and positive weights lies in [0, sum) and is below the cumulative weight through the picked branch, so the loop selects without the fallback |
| Branch.Probability | src/probability-branch.ts:91-93 | a supplied probability is used as is and leaves the generator alone; otherwise the generator advances by one draw and the probability is that draw scaled by the total weight |
| Branch.RunGate | src/probability-branch.ts:99-105 | the intended decision: nothing to select (zero sum or no branches) exactly when the run returns empty-handed; the run proceeds exactly when there is something to select and the limit is 0 or below or above the count, so the incremented count stays within a positive limit |
| Branch.RunGateAsWritten | src/probability-branch.ts:99-105 | the decision as written: the same empty case, and a run proceeds only when the count has already passed the limit |
| Branch.AsWrittenRefusesFirstRun | src/probability-branch.ts:103-105 | with the guard as written, the first run of a non-empty selector with limit >= 0 is refused, where the intended guard proceeds |
| Branch.GatesAgreeExactly | src/probability-branch.ts:99-105 | the guard as written and the intended guard agree exactly for a negative limit, for limit 0 after a counted run, and for a positive limit at count == limit |
| Branch.ProbabilityBranch.constructor | src/probability-branch.ts:7-20 | a new selector is empty, with sum 0 and count 0, and keeps the given limit |
| Branch.ProbabilityBranch.GetCount | src/probability-branch.ts:51-53 | the run count, never above a positive limit |
| Branch.ProbabilityBranch.Add | src/probability-branch.ts:62-83 | weight 0 is a no-op; a negative weight or one above MAX_NUM fails and changes nothing; otherwise weight and handler are appended and the weight is added to the sum; `sum == Sum(probabilities)` and the other invariants are preserved |
| Branch.ProbabilityBranch.Clear | src/probability-branch.ts:126-137 | limit 0, or a limit above the count, leaves everything; otherwise sum is 0 and both lists are empty; count and limit never change |
| Branch.ProbabilityBranch.Run | src/probability-branch.ts:90-124 | the draw comes first. Then, in order: an empty or zero-sum selector returns `NotSelected` with nothing changed; a reached limit returns `RunLimitExceeded` with nothing changed; otherwise the count rises by one and the branch `Pick` names for the probability is entered, and the selector is cleared when the new count reaches a positive limit |
| Branch.ProbabilityBranch.Enter | src/probability-branch.ts:99-124 | the same outcomes as `Run` for a known probability |
| Branch.PickExamples | tests/index.test.ts:5-18 | weights 1, 2, 3 with p = 0, 1.5, 3.5 pick 0, 1, 2, as the three runs of the test expect; a further case that this test does not make, p = 999 beyond the total, picks the last branch |
| Branch.PickEdgeExamples | tests/edge-cases.test.ts:31-56 | weights 1, 1 with p = 999 or 1.999999999 pick the last; a MAX_NUM weight ahead of a weight 1 with p = 0 picks the MAX_NUM weight |
| Branch.WeightsOneTwoThree | tests/probability-branch.test.ts:5-17 | on an unlimited selector built by three `Add` calls, runs with 0, 1.5 and 3.5 enter branches 0, 1 and 2, as the test expects; a fourth run with 999, which this test does not make, enters the last |
| Branch.LimitTwo | tests/probability-branch.test.ts:24-31 | limit 2: two runs enter, the count stays at 2, the third run selects nothing (the selector was cleared), and after another `Add` a run fails with `RunLimitExceeded` |
| Branch.NoBranches | tests/index.test.ts:43-46 | a fresh selector with no branches selects nothing and counts no run |
| Branch.Unlimited | tests/edge-cases.test.ts:45-49 | with limit 0, `n` runs of a one-branch selector all enter and the count reaches `n` |

## Left out

- Twister.MersenneTwister.InitGenrand: the seeding multiply `1812433253 * x` at src/mersenne-twister.ts:19 is modelled as exact arithmetic modulo 2^32, as MT19937 defines it. In JavaScript the product can exceed 2^53 and is rounded to a double before `>>> 0`, so the program's register can differ from this one.
- Twister.Low32: a seed is an integer here; `>>> 0` applied to a fractional or non-finite number (ToUint32 truncation, NaN to 0) is not modelled.
- Twister.TemperReference: tempering is checked against reference outputs only. Its inverse (undoing the four xor-shift steps) makes the bit-vector proof obligations too large, so no all-inputs property of `Temper` is proved.
- The default seed `Date.now()` (src/mersenne-twister.ts:11) is clock input. The seed is a constructor parameter instead.
- The `mag01` table lookup is written as a conditional on the low bit, which is the same value.
- Floating point: weights, sums, cumulative totals and `random() * sum` are exact reals. Rounding drift, infinities and NaN (src/probability-branch.ts:79, 92, 112) are not modelled. So with a drawn probability the last-branch fallback can never be reached here (`Branch.DrawnProbabilityNeverFallsBack`), while in doubles it can.
- Dynamic `typeof` checks on weight, handler and probability (src/probability-branch.ts:63-68, 95-97) are enforced by the types here.
- Handlers are opaque: their side effects and return values are not modelled. A run returns the selected index and handler.
- A handler that throws (src/probability-branch.ts:114, 121) is not modelled: the source has then already incremented `count` (line 107) and skips `clear`, so the selector keeps its branches with the count at the limit and its next run fails on the limit. In the model every entered run completes its `clear`.
- `add` returns the selector for chaining. Here it returns a status, and an error is a `Fail` value rather than a thrown exception.
- The limit option is taken as given. The source applies a default of 1 (src/probability-branch.ts:18) but never validates it: a negative or fractional limit is accepted. The model's `limit` is an `int`, so a fractional limit (for which `count >= limit` and `limit > count` compare against a non-integer) cannot be expressed.
- Line 92 of src/probability-branch.ts reads the missing static `ProbabilityBranch.generator`, so as written every `run` called without a probability fails with a TypeError before line 99 is reached. The model instead supplies the generator through `Run`'s `gen` parameter and draws from it.
- The module-level generator and the registry functions are not part of this model: `setGenerator` (a no-op), `setSeed`, `getSeed`, the generator-count accessor and the static accessors that refer to a missing `ProbabilityBranch.generator`. `Run` takes the generator as a parameter.
- The private-token guards (`expectPrivate`), error formatting and `console.warn` (src/expect.ts, src/error.ts) carry no behaviour of the selector.
- Branch.PickExamples: tests/index.test.ts:5-18 builds `pb()` with the default limit 1 and expects all three runs to enter a branch. Under the modelled policy the first run reaches the limit and clears the selector, so the second and third runs return "nothing selected". `Branch.WeightsOneTwoThree` shows the three selections on an unlimited selector instead, as tests/probability-branch.test.ts:5-17 does.
- Branch.LimitTwo: tests/probability-branch.test.ts:29 expects the third run past limit 2 to throw. With the source's check order and the corrected guard, an exhausted selector has been cleared, so the run returns "nothing selected" instead.

## Findings

| source | as written | input that shows it | evidently intended | confidence | as-written member | corrected member |
|---|---|---|---|---|---|---|
| src/probability-branch.ts:103 | the run is refused when `limit >= count` | default limit 1, one branch of weight 1, `pb().add(1, h).run(0)` (as in tests/index.test.ts:7-13): the run reaches line 103 with count 0, 1 >= 0 holds, so it throws. The count never rises, so no run ever enters a branch (likewise for limit 0, "unlimited") | refuse only when `limit > 0 && count >= limit`, the reading used by `clear` at lines 128-133 and by the limit option's documentation | high; not executed | Branch.AsWrittenRefusesFirstRun | Branch.ProbabilityBranch.Run |
