# Perk selection engine, modelled in Dafny

The model covers the seedable perk-selection engine of a game-perk generator. It has three parts:

- **`Lcg` (seeded_random.dfy)** is the string-seeded linear congruential generator `SeededRandom`:
  - the rolling string hash `hashCode`;
  - the step `seed := (1664525 * seed + 1013904223) mod 2^32`;
  - `reset`, `next`, `nextInt`;
  - the Fisher–Yates `shuffle`.
- **`Mt` (mersenne_twister.dfy)** is the `MersenneTwister` class:
  - a 624-word state array and a cursor;
  - the seeding loop, computed in double precision as the source computes it;
  - the in-place twist `generate_numbers`;
  - tempering in `extract_number`;
  - `random` and `getRandomInt`.
- **`Selector` (perk_selector.dfy)** is the `PerkSelector` engine. It holds a catalog of perks, the set of used names, the generator of the last seed and that seed. Its operations are `setSeed`, `selectRandomPerks` (seeded and unseeded paths), `selectSinglePerkOfType`, `hashSeed`, `getRandomElement`, `resetUsedPerks` and `getAvailablePerkCount`.
- **`JsSemantics` (js_semantics.dfy)** holds the JavaScript semantics the engine relies on:
  - strings as UTF-16 code units;
  - ToInt32 and ToUint32;
  - `Math.floor(u * n)` for a generator output `u = w / 2^32`;
  - the end index of `Array.prototype.slice`;
  - thrown errors as `Err` results.

How the model represents the source:

- **Generator outputs.** `next()` and `random()` return the integer numerator `w` of `w / 2^32`. Indices are `FloorScaled(w, n) = (w * n) / 2^32`.
- **Mersenne Twister words.** They are `bv32` values. Where JavaScript stores a word as a signed number (the result of `&` or `^`), the bit pattern is the same.
- **Imperative parts stay imperative.**
  - The hash, seeding, twist and shuffle loops are `while`/`for` loops over arrays and local variables.
  - The mutable fields are class fields with `modifies` frames.
  - Each loop and each state change is proved against a specification function, except the unseeded draw without a generator, which is driven by `Math.random()` and is proved to keep the invariant `DrawSound`. For example, `GenerateNumbers` is proved against `TwistSteps`, and that is proved equal to the MT19937 recurrence `Recurrence`. `Shuffle` is proved against `ShuffleFrom`, which is proved to be a permutation. `HashCode` is proved against `StringHash`. The unseeded draw with a generator is proved against `DrawFrom`.
- **Two draw loops.** The unseeded draw loop takes `this.rng?.next() ?? Math.random()`. It is modelled as two loops, one per source of values: `DrawWithGenerator` and `DrawWithMathRandom`. `DrawUnused` picks between them.

## Model

| member | source | states |
|---|---|---|
| JsSemantics.ToInt32 | src/utils/seededRandom.ts:14-15 | the result is a signed 32-bit value congruent to its argument modulo 2^32 (`<< 5` and `hash & hash`) |
| JsSemantics.ToUint32 | src/utils/mersenneTwister.ts:7 | `x >>> 0` is an unsigned 32-bit value congruent to x modulo 2^32 |
| JsSemantics.Abs | src/utils/seededRandom.ts:17 | `Math.abs` returns x or -x, and never a negative value |
| JsSemantics.FloorScaled | src/utils/perksSelector.ts:151-152 | `Math.floor(u * n)` for a generator output u in [0, 1) lies in [0, n) whenever n >= 1 |
| JsSemantics.SliceEnd | src/utils/perksSelector.ts:140 | `slice(0, count)` keeps count elements when 0 <= count <= length, all of them when count is larger, and counts back from the end when count is negative |
| Lcg.HashState | src/utils/seededRandom.ts:10-16 | the hash accumulator stays in the signed 32-bit range after every character |
| Lcg.StringHash | src/utils/seededRandom.ts:10-18 | the hash of any string lies in [0, 2^31] |
| Lcg.ShiftSubtractIsTimes31 | src/utils/seededRandom.ts:14-15 | the shift-and-subtract update followed by `hash & hash` equals ToInt32(31 * hash + char) |
| Lcg.SeededRandom.HashCode | src/utils/seededRandom.ts:10-18 | the accumulator loop computes StringHash of its argument |
| Lcg.SeededRandom.constructor | src/utils/seededRandom.ts:5-8 | after construction seed == initialSeed == StringHash(str); initialSeed is a constant from then on |
| Lcg.SeededRandom.Reset | src/utils/seededRandom.ts:20-22 | seed is restored to initialSeed |
| Lcg.SeededRandom.Next | src/utils/seededRandom.ts:24-31 | seed takes one LCG step modulo 2^32, and the returned numerator equals the new seed, so next() lies in [0, 1) |
| Lcg.SeededRandom.NextInt | src/utils/seededRandom.ts:33-35 | takes one step and returns min + floor(u * (max - min)), which lies in [min, max) when min < max |
| Lcg.SeededRandom.Shuffle | src/utils/seededRandom.ts:37-44 | the in-place loop on the copied array yields ShuffleFrom of the input: same length, same multiset, \|items\| - 1 draws (none for an empty input); the input is a value and is untouched |
| Lcg.AdvanceStep | src/utils/seededRandom.ts:24-31 | k + 1 steps are one step after k steps |
| Lcg.StreamAt | src/utils/seededRandom.ts:24-31 | the i-th of k consecutive next() values is the state after i + 1 steps |
| Lcg.SwapPartner | src/utils/seededRandom.ts:40 | the swap partner j of position i satisfies 0 <= j <= i |
| Lcg.Swap | src/utils/seededRandom.ts:41 | the destructuring swap exchanges positions i and j and keeps every other position |
| Lcg.ShuffleFromPermutes | src/utils/seededRandom.ts:37-44 | the shuffle is a permutation: same length and same multiset |
| Lcg.ShuffleFromDraws | src/utils/seededRandom.ts:39-40 | the passes for positions i down to 1 draw exactly max(i, 0) values |
| Lcg.Draw | src/utils/seededRandom.ts:24-31 | k calls of next() return Stream(seed, k) and leave the state advanced by k steps |
| Lcg.ReplayAfterReset | src/utils/seededRandom.ts:20-31 | after reset() the generator replays exactly the values it produced after construction |
| Lcg.SameSeedSameStream | src/utils/seededRandom.ts:5-31 | two generators built from the same string produce the same values |
| Mt.RoundMagnitude | src/utils/mersenneTwister.ts:9 | rounding to a double leaves every integer of magnitude at most 2^53 unchanged |
| Mt.RoundToDouble | src/utils/mersenneTwister.ts:9 | the double nearest an integer result equals that integer within [-2^53, 2^53] |
| Mt.InitWords | src/utils/mersenneTwister.ts:6-11 | the first n seeding entries form a sequence of length n |
| Mt.InitWordsHead | src/utils/mersenneTwister.ts:7 | entry 0 of the initial state is the seed modulo 2^32 |
| Mt.MersenneTwister.constructor | src/utils/mersenneTwister.ts:6-11 | the state is the 624-word InitState(seed) with mt[0] == seed >>> 0, and the cursor is 0 |
| Mt.MersenneTwister.InitialWords | src/utils/mersenneTwister.ts:6-11 | a fresh 624-word array holding InitState(seed), whose entry 0 is seed >>> 0 |
| Mt.MersenneTwister.FillWords | src/utils/mersenneTwister.ts:8-10 | the seeding loop fills entries 1 to 623, each from the one before it, giving InitState(seed) |
| Mt.MersenneTwister.SeedingStep | src/utils/mersenneTwister.ts:9 | one pass of the seeding loop appends the next entry of the initial state |
| Mt.TwistSteps | src/utils/mersenneTwister.ts:30-39 | the state after the first i passes of the twist loop keeps all 624 words |
| Mt.TwistStepsAt | src/utils/mersenneTwister.ts:30-39 | after i passes, position j holds word 624 + j of the recurrence if j < i and is untouched otherwise |
| Mt.TwistStepsNewWord | src/utils/mersenneTwister.ts:32-37 | pass i - 1 stores word 624 + i - 1 of the MT19937 recurrence, even though it reads words earlier passes rewrote |
| Mt.TwistReadsNext | src/utils/mersenneTwister.ts:32 | the successor that a pass reads, `mt[(i + 1) % 624]`, is the next word of the recurrence; for the last pass it is the already rewritten position 0 |
| Mt.TwistReadsFar | src/utils/mersenneTwister.ts:33 | the word a pass reads 397 positions on, `mt[(i + 397) % 624]`, is the right word of the recurrence, whether untouched or already rewritten |
| Mt.TwistIsRecurrence | src/utils/mersenneTwister.ts:30-39 | the in-place twist computes the next 624 words of the MT19937 recurrence |
| Mt.TwistEarlyWord | src/utils/mersenneTwister.ts:32-37 | the twisted words below 227 depend only on untouched words: the word, its successor and the word 397 positions on |
| Mt.MersenneTwister.GenerateNumbers | src/utils/mersenneTwister.ts:30-39 | the in-place loop turns the state into Twist of the old state |
| Mt.Extract | src/utils/mersenneTwister.ts:14-27 | one extract_number call keeps the state well formed: 624 words and a cursor below 624 |
| Mt.Run | src/utils/mersenneTwister.ts:14-27 | k calls keep the state well formed and yield k outputs |
| Mt.RunCursor | src/utils/mersenneTwister.ts:25 | starting from a fresh generator, the cursor is k mod 624 after k calls |
| Mt.RunSchedule | src/utils/mersenneTwister.ts:15-17 | call k + 1 twists the state exactly when k is a multiple of 624: the first call and every 624th after it |
| Mt.MersenneTwister.ExtractNumber | src/utils/mersenneTwister.ts:14-27 | twists when the cursor is 0, returns the four tempering steps of mt[index] as an unsigned 32-bit value, and advances the cursor modulo 624; this is Extract of the old state |
| Mt.FirstOutputFromThreeWords | src/utils/mersenneTwister.ts:14-39 | the first output of a fresh generator is the tempered twist of initial words 0, 1 and 397 |
| Mt.FirstExtract | src/utils/mersenneTwister.ts:14-39 | from cursor 0, the output is the tempered twist of words 0, 1 and 397 of the state |
| Mt.MersenneTwister.Random | src/utils/mersenneTwister.ts:42-44 | returns the numerator of random() = w / 2^32, so random() lies in [0, 1); the new state and w are Extract of the old state |
| Mt.MersenneTwister.GetRandomInt | src/utils/mersenneTwister.ts:47-49 | returns min + floor(random() * (max - min)), which lies in [min, max) when min < max |
| Mt.SeedOutputs | src/utils/mersenneTwister.ts:6-27 | the first k outputs of a generator built from a seed are Run from InitState(seed): a function of the seed alone |
| Mt.SameSeedSameOutputs | src/utils/mersenneTwister.ts:6-27 | two generators built from the same seed produce identical output sequences |
| Selector.Names | src/utils/perksSelector.ts:103 | every perk's name is among the names of the catalog, and there are no more names than perks |
| Selector.NameAbsent | src/utils/perksSelector.ts:155 | a name that no perk carries is not among the names |
| Selector.NamesWithin | src/utils/perksSelector.ts:155-157 | the names of perks drawn from the catalog are catalog names |
| Selector.Unused | src/utils/perksSelector.ts:143 | `perks.filter(perk => !usedPerks.has(perk.name))` holds exactly the catalog perks whose names are unused |
| Selector.UnusedKeepsDistinct | src/utils/perksSelector.ts:143 | the filter of a catalog with distinct names has distinct names |
| Selector.UnusedIgnores | src/utils/perksSelector.ts:143 | a used name that no catalog perk carries does not change the filter |
| Selector.UnusedCount | src/utils/perksSelector.ts:143-144 | with distinct catalog names and only catalog names used, exactly \|perks\| - \|usedPerks\| perks are unused |
| Selector.Matching | src/utils/perksSelector.ts:172-177 | the type filter holds exactly the catalog perks of the type whose names are not excluded |
| Selector.Pool | src/utils/perksSelector.ts:172-186 | the candidates, or else the fallback: perks of the type only; empty exactly when the catalog has no perk of the type; free of excluded names whenever some perk of the type is not excluded |
| Selector.RemoveAt | src/utils/perksSelector.ts:158 | `splice(index, 1)` removes exactly the element at index: length one less, multiset less that element, later elements shifted down |
| Selector.DistinctAppend | src/utils/perksSelector.ts:155-157 | pushing a perk whose name is unused keeps the selected names distinct and adds exactly that name |
| Selector.RemoveAtKeepsDistinct | src/utils/perksSelector.ts:158 | splicing out a perk keeps the names distinct and leaves no perk of the removed name |
| Selector.ShuffleKeepsDistinct | src/utils/perksSelector.ts:138 | shuffling keeps the catalog's names distinct |
| Selector.PermutationPrefix | src/utils/perksSelector.ts:138-140 | a prefix of a shuffle holds catalog perks only, each at most as often as in the catalog |
| Selector.SeededSelection | src/utils/perksSelector.ts:135-141 | the seeded result has length `slice(0, count)` of the catalog, holds catalog perks only, each at most as often as the catalog, and has distinct names when the catalog has |
| Selector.DrawFrom | src/utils/perksSelector.ts:149-160 | the generator-driven draw loop, round by round, ends with count perks unless the bound on repeated draws stops it |
| Selector.DrawFromSound | src/utils/perksSelector.ts:149-160 | whatever the generator yields, the drawn perks come from the available list, have distinct names none of which was used, and the used names grow by exactly those names |
| Selector.DrawFromClean | src/utils/perksSelector.ts:149-160 | when the pool's names are distinct and none is used, no draw is repeated: the bound is never reached and the generator takes exactly one step per missing perk |
| Selector.UnseededDraw | src/utils/perksSelector.ts:143-160 | the unseeded path with a generator: filter the unused perks, refill with the whole catalog and no used name when too few remain, then draw; count perks unless the bound stops it |
| Selector.UnseededDrawClean | src/utils/perksSelector.ts:143-160 | with distinct catalog names and enough unused perks, the unseeded path with a generator succeeds and advances the generator by exactly count steps |
| Selector.PerkSelector.constructor | src/utils/perksSelector.ts:101-114 | a new engine holds the given catalog, no used names, no generator and the empty last seed |
| Selector.PerkSelector.SetSeed | src/utils/perksSelector.ts:116-124 | a new seed clears the used names, records the seed and installs a fresh generator; the same seed keeps the used names and generator and resets it; either way the generator stands at the seed's hash |
| Selector.PerkSelector.SelectRandomPerks | src/utils/perksSelector.ts:126-163 | fails with TooManyRequested exactly when count exceeds the catalog size, keeping any seed change made before the check; a truthy seed leaves no name used, returns SeededSelection and leaves the generator where the shuffle stops; an empty or missing seed keeps lastSeed and the same generator object and yields the UnseededOutcome; with a generator, the result, the used names and the generator's new state are those of UnseededDraw from its old state; a failing call with a truthy seed leaves the generator at the seed's hash, and one without a seed leaves the generator's state alone |
| Selector.PerkSelector.SelectUnseeded | src/utils/perksSelector.ts:143-162 | clears the used names first exactly when too few unused perks remain; returns count perks (none for count < 1) with distinct names, all unused before the draw; adds exactly their names; never reports DrawLimit when the catalog's names are distinct and enough unused perks remain; with a generator, the result, the used names and the generator's new state are those of UnseededDraw from its old state |
| Selector.PerkSelector.DrawUnseeded | src/utils/perksSelector.ts:143-162 | the filter, refill and draw keep the used names within the catalog, give the UnseededOutcome when the bound is not reached, never reach it with distinct names and enough unused perks, and with a generator equal UnseededDraw |
| Selector.PerkSelector.DrawUnused | src/utils/perksSelector.ts:149-160 | the draw loop returns perks from the available list whose names were not used, with distinct names, and adds exactly their names to the used set; without a repeated draw it returns count perks; with a generator, the perks, the used names, the generator's new state and the bound flag are those of DrawFrom from its old state, and when the available names are distinct and unused the generator advances by exactly count steps |
| Selector.PerkSelector.DrawWithGenerator | src/utils/perksSelector.ts:149-160 | the loop driven by `this.rng.next()` ends with the perks, used names, generator state and bound flag that DrawFrom gives from the generator's old state |
| Selector.PerkSelector.DrawWithMathRandom | src/utils/perksSelector.ts:149-160 | the loop driven by arbitrary indices returns perks from the available list with distinct names, none used before, adds exactly their names, returns count perks unless the bound stops it, and never reaches the bound when the available names are distinct and unused |
| Selector.PerkSelector.SelectSinglePerkOfType | src/utils/perksSelector.ts:165-190 | fails exactly when no catalog perk has the type, with the used names unchanged; otherwise returns a Pool element; the normal path adds the chosen name and the fallback path leaves the used names unchanged; with a seed the result is the Pool element at the first Mersenne Twister output of the seed's hash scaled to the pool's length |
| Selector.PerkSelector.PickSeeded | src/utils/perksSelector.ts:166-186 | fails exactly on an empty pool and otherwise returns a pool element; with a seed, the element at FirstOutput of the seed's hash scaled to the pool's length, since a fresh generator is built per call |
| Selector.PerkSelector.HashSeed | src/utils/perksSelector.ts:193-201 | hashSeed computes the same StringHash as SeededRandom's hashCode |
| Selector.PerkSelector.GetRandomElement | src/utils/perksSelector.ts:204-212 | fails exactly on an empty array, leaving the generator untouched, and otherwise returns an element; with a generator, the element at getRandomInt(0, length), that is at Extract of the generator's state scaled to the length, and the generator advances by that one call |
| Selector.PerkSelector.ResetUsedPerks | src/utils/perksSelector.ts:214-216 | no name is used afterwards, and the available count equals the catalog size |
| Selector.PerkSelector.AvailablePerkCount | src/utils/perksSelector.ts:218-220 | \|perks\| - \|usedPerks\| is never negative, and counts the unused catalog perks when the catalog's names are distinct |
| Selector.UnseededSelectionIsReproducible | src/utils/perksSelector.ts:116-162 | two engines given the same non-empty seed return the same perks from their first unseeded selection, which succeeds when the catalog's names are distinct and count is within the catalog |
| Selector.SeededSelectionIsReproducible | src/utils/perksSelector.ts:126-141 | two calls with the same non-empty seed and count return the same perks, the seeded selection, even with an unseeded call between them |

## Left out

- **Catalog loading.** The JSON import, the constructor's `try/catch` and `console.error` are not modelled. The catalog is a constructor parameter.
- **The `typeof excludePerks === 'string'` normalisation.** The exclusion list is always a sequence of names.
- **`Math.random()`.** Each fallback draw is an arbitrary in-range index: `:|` in `DrawWithMathRandom` and `GetRandomElement`.
- **Floating point.** Generator outputs are modelled by their integer numerators, and `Math.floor(u * n)` by `(w * n) / 2^32`. This is exact while `n < 2^21`. The one place where doubles round is the seeding multiply of the Mersenne Twister, and it is modelled bit for bit by `RoundToDouble`.
- **Non-integer arguments.** `count`, `min` and `max` are integers. JavaScript numbers with fractions are not modelled.
- Mt.InitWords: it states only the length of the initial state and its first entry. The rounded seeding multiply makes the state differ from the reference MT19937 initialisation, so no equivalence is claimed.
- **The inline copies.** `src/utils/perksSelector.ts` carries its own copies of `MersenneTwister` (lines 5-53) and `SeededRandom` (lines 55-99). They are textually the same as the standalone files and are modelled once, in `Mt` and `Lcg`.
- **Static helpers.** `hashSeed` and `getRandomElement` are modelled as static methods, since they read no engine state.
- Selector.PerkSelector.HashSeed: its loop is the same as `hashCode`'s, so it calls `Lcg.SeededRandom.HashCode` instead of repeating the loop.
- Selector.PerkSelector.PickSeeded: `selectSinglePerkOfType` builds its Mersenne Twister before filtering the catalog. The model builds it just before the one draw that uses it, which has the same effect.
- Selector.PerkSelector.SelectUnseeded: the source's loop has no bound on draws that land on an already-used name.
  - The model gives up with `DrawLimit` after 1,000,000 such draws.
  - It proves that this never happens when the catalog's names are distinct and enough unused perks remain.
  - After a wrap-around, the pool holds a perk twice. Termination then rests on the generator eventually hitting an unused name, which the model does not prove.
  - With a catalog that has two perks of the same name, the source's loop can run forever where the model reports `DrawLimit`.
  - The draw keeps the used names in a local set, and `SelectUnseeded` stores it once at the end. The source adds to the field on each pick; nothing observes the difference.
- **Tempering.** Tempering is not proved invertible, since the engine never inverts it.
- **UI code.** The Vue composable `src/composables/usePerkSelector.ts` and the colour table `src/utils/categoryColors.ts` are not part of this model.
