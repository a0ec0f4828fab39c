# Lotofácil fácil — generator and scorer

A model of the core of a single-page helper for the 15-of-25 lottery
"Lotofácil". The player marks five numbers to leave out. The tool then draws
20 combinations of 15 numbers each from the remaining pool. Each draw is a
partial Fisher–Yates shuffle, and each combination is sorted ascending. Once
the official result has been entered, the tool counts each combination's
hits and builds a histogram of the prize tiers 11 to 15. From that it
computes the prize total and the net profit against the fixed cost of 60.

Modules:

- `Rules` (`rules.dfy`): the game's constants (25 numbers, 15 per
  combination, 20 combinations, 5 exclusions, cost 60, fixed prizes 6/12/30).
- `Sequences` (`sequences.dfy`): ordering, distinctness, the value set of a
  sequence, and the numeric ascending sort (`SortAscending`, a function: sorted
  and a permutation of its input).
- `Generator` (`generator.dfy`): `generateCombinations`. `ValidExclusions` is
  the range filter. `BuildAllowed` is the loop that builds the pool.
  `DrawGroup` is one round of the shuffle, over a fresh array `copy` that
  `Swap` changes in place; `Shuffled` is the same round on values, and the
  method is proved to pick exactly what it picks. `DrawRounds` is the outer
  loop of 20 rounds, and `Round` is one round's draw, sorted. `Generate` is
  the whole operation, and it returns either `InvalidExclusionCount` (the alert path) or `Generated`.
- `Scorer` (`scorer.dfy`): `isCorrectNumber`, `calculateHits`,
  `calculatePerformance` (a loop that bumps a map keyed 11..15) and
  `calculateTotalPrizes` (a loop that accumulates over the keys in ascending
  order). The specification functions `TierCount`, `ScoringCount` and
  `Weighted` carry the lemmas.
- `Application` (`application.dfy`): the component's state as a class `App`.
  Its fields are the exclusion slots, the combinations, the result slots and
  the two entered prizes. It has the handlers that change those fields, and
  `Evaluate`, which yields the performance table, total prize and net profit
  that each render computes.

`Math.floor(Math.random() * m)` is replaced by an index oracle
`rand(round, j, m)`. The only assumption about it is that it lands in
`[0, m)`, so every property proved about generation holds for every possible
random outcome.

Behaviour of the code worth knowing:

- Duplicate exclusion slots are not merged. `[3, 3, 3, 3, 3]` passes the
  check and excludes only 3 (`Generator.DuplicateExclusionsAccepted`), so the
  pool has between 20 and 24 numbers (`Generator.PoolSizeBounds`).
- Generation is refused for any count of in-range exclusion slots other than
  5. The component has five slots, so in practice only fewer can occur; the
  model accepts any number of slots and refuses every count other than 5.
- The prize total is an integer sum, because the prize inputs go through
  `parseInt`; the model uses `int`.

## Model

| member | source | states |
|---|---|---|
| Generator.ValidExclusions | src/App.tsx:37 | keeps exactly the slots whose value lies in 1..25, each value as often as it occurs (no deduplication), never more slots than given |
| Generator.InPoolExclusionsKept | src/App.tsx:37 | slots that all hold game numbers pass the filter unchanged |
| Generator.DuplicateExclusionsAccepted | src/App.tsx:37-45 | for any game number n, five copies of n pass the count check and exclude only n |
| Generator.BuildAllowed | src/App.tsx:43-48 | the loop builds exactly the reference pool `AllowedPool` (1..25 without the excluded numbers); the pool is strictly ascending, holds exactly the numbers 1..25 that no valid exclusion names, and has 25 minus the number of distinct exclusions elements |
| Generator.Numbers | src/App.tsx:44 | the candidates 1..25 of the pool loop, strictly ascending, exactly the game numbers |
| Generator.WithoutShape | src/App.tsx:44-48 | dropping the excluded numbers from an ascending candidate list keeps it strictly ascending and removes exactly the excluded ones |
| Generator.StrictlyAscendingUnique | src/App.tsx:43-48 | two strictly ascending sequences with the same members are equal, so the loop's pool is the reference pool |
| Generator.PoolSizeBounds | src/App.tsx:37-48 | after a passing check the pool has between 20 and 24 numbers (so always at least the 15 a draw needs) |
| Generator.Spread | src/App.tsx:53 | the copy is a fresh array holding the pool |
| Generator.Swap | src/App.tsx:58-61 | the destructuring swap exchanges the two slots and changes nothing else |
| Generator.SwapToBoundary | src/App.tsx:55-62 | one swap keeps the copy a permutation, puts the picked element at the boundary `len-1-j`, and leaves the picked suffix beyond it untouched |
| Generator.PickStep | src/App.tsx:55-62 | one iteration keeps the loop invariant `DrawState`: the copy is a permutation of the pool, and the picks, last first, fill the suffix `copy[len-j..]` with one more element |
| Generator.Shuffled | src/App.tsx:55-62 | the shuffle on values: after j steps the copy still has the pool's length and exactly j numbers have been picked |
| Generator.ShuffleStep | src/App.tsx:55-62 | step j of the shuffle on values (pick at the oracle's index below `len-j`, swap it to the boundary) keeps `DrawState` |
| Generator.ShuffledKeepsDrawState | src/App.tsx:55-62 | after every number of steps the copy is a permutation of the pool and the picks, last first, are exactly its suffix |
| Generator.DrawIsSubMultiset | src/App.tsx:55-62 | the picks after any number of steps are a sub-multiset of the pool: the shuffle draws without replacement |
| Generator.DrawGroup | src/App.tsx:52-62 | for every in-range choice of indices, the round's 15 picks are exactly those of the shuffle on values (`Shuffled`) and form a sub-multiset of the pool |
| Generator.SortedDrawIsCombination | src/App.tsx:55-64 | a draw from the pool, once sorted, is 15 strictly ascending game numbers, none of them excluded |
| Generator.Generate | src/App.tsx:36-67 | rejects exactly when the number of in-range exclusion slots is not 5, reporting that number; otherwise returns exactly 20 combinations, combination i being round i's shuffle of the reference pool under the oracle, sorted (`Round`), and each 15 strictly ascending numbers from 1..25 that no slot excludes |
| Generator.DrawRounds | src/App.tsx:50-65 | the outer loop yields 20 combinations, combination i being round i's draw sorted (`Round`) |
| Generator.RoundIsCombination | src/App.tsx:51-64 | every round drawn from the allowed pool, once sorted, is 15 strictly ascending game numbers, none excluded |
| Sequences.SortAscending | src/App.tsx:64 | `sort((a, b) => a - b)` yields an ascending permutation of the group |
| Sequences.SortDistinctIsStrict | src/App.tsx:64 | sorting a group without repeats gives a strictly ascending sequence of the same 15 values |
| Sequences.SubMultisetKeepsDistinct | src/App.tsx:55-62 | drawing without replacement from a pool without repeats gives pairwise-distinct values |
| Scorer.IsCorrectNumber | src/App.tsx:70-72 | a number is correct exactly when some result slot holds it; while no slot holds a game number, no game number is correct |
| Scorer.Hits | src/App.tsx:74-76 | the hit count lies in 0..the combination's length |
| Scorer.HitsIsIntersectionSize | src/App.tsx:74-76 | for a combination without repeats, the hit count is the size of the set intersection with the result |
| Scorer.AllHitIffEveryNumberCorrect | src/App.tsx:70-76 | a combination scores its full length exactly when `isCorrectNumber` holds for every one of its numbers |
| Scorer.UnsetSlotNeverMatches | src/App.tsx:70-76 | a result slot still 0 never matches a game number: removing it changes no hit count |
| Scorer.HitsAppend | src/App.tsx:74-76 | hits add up over the two parts of a split combination |
| Scorer.NoNumberCorrectNoHits | src/App.tsx:74-76 | a combination with no number in the result scores 0 |
| Scorer.PartialResultExample | src/App.tsx:74-76 | combination 1..15 against result 1..11 with four unset slots scores 11 |
| Scorer.TierCount | src/App.tsx:78-89 | a tier count never exceeds the number of combinations |
| Scorer.ScoringCount | src/App.tsx:83-85 | the number of combinations above 10 hits never exceeds the number of combinations |
| Scorer.CalculatePerformance | src/App.tsx:78-89 | the table has exactly the keys 11..15, and bucket t is the number of combinations with exactly t hits |
| Scorer.BucketsSumToScoring | src/App.tsx:78-89 | the five buckets add up to the number of combinations with more than 10 hits (none is lost above 15) |
| Scorer.ScoringCountIsAll | src/App.tsx:83-85 | the buckets' total is at most the number of combinations, and equals it exactly when every combination has at least 11 hits |
| Scorer.CalculateTotalPrizes | src/App.tsx:91-108 | the loop over the keys yields the sum over tiers 11..15 of bucket count times prize |
| Scorer.PrizeTable | src/App.tsx:93-99 | the prize table has exactly the tiers 11..15, tiers 14 and 15 pay the entered prizes, and the fixed prizes rise with the tier (6 < 12 < 30) |
| Scorer.TotalPrizesClosedForm | src/App.tsx:93-105 | that sum is 6·p[11] + 12·p[12] + 30·p[13] + prize14·p[14] + prize15·p[15] |
| Scorer.TotalPrizesLinear | src/App.tsx:101-105 | changing one tier's prize changes the total by that tier's count times the difference, and by nothing else |
| Scorer.PrizeExample | src/App.tsx:91-113 | buckets {11:2, 12:1} with prizes 50 and 1000 give a total of 24 and a net profit of −36 |
| Application.App.constructor | src/App.tsx:4-11 | initial state: five empty exclusion slots, fifteen empty result slots, zero prizes, the stored combinations |
| Application.App.SetExclusion | src/App.tsx:24-28 | one exclusion slot takes the parsed value, the others stay |
| Application.App.SetResult | src/App.tsx:30-34 | one result slot takes the parsed value, the others stay |
| Application.App.SetPrize14 | src/App.tsx:260-263 | the parsed tier-14 prize input replaces the old prize, and the state stays valid |
| Application.App.SetPrize15 | src/App.tsx:274-277 | the parsed tier-15 prize input replaces the old prize, and the state stays valid |
| Application.App.GenerateCombinations | src/App.tsx:36-68 | on the alert path the combinations stay as they were; otherwise the 20 new combinations, combination i being round i's sorted draw under the oracle, replace the old set wholesale |
| Application.App.Evaluate | src/App.tsx:110-113 | performance table as above; total prize = 6·n11 + 12·n12 + 30·n13 + prize14·n14 + prize15·n15 over the current combinations and result; net profit = total − 60 |

## Left out

- React's `useState`/`useEffect` and the re-render cycle: the state is the
  fields of `App`, and each render's derived values come from an explicit
  call to `Evaluate`.
- Persistence: the constructor receives the combinations read from
  `localStorage`. Saving them, and `JSON.parse`/`JSON.stringify`, are
  I/O and are not modelled.
- `Math.random` and `Math.floor`: replaced by the index oracle. Uniformity of
  the draw is a probabilistic property and is not stated.
- Input parsing (`parseInt(value) || 0` in `handleChange`,
  `handleResultChange` and the prize inputs): the setters take the integer
  that parsing produced.
- `formatValue` (BRL currency formatting), `console.log` and all JSX. That
  includes the green/red highlighting of correct numbers and the grid of
  numbers used (src/App.tsx:176-212), which only read the state.
- Numbers in the source are JavaScript doubles. The model uses unbounded
  integers. They agree for the game numbers, the counts and the fixed prizes.
  For the entered prizes the model assumes finite entries whose products and
  sum stay below 2^53: above that the double sum rounds, and an entry too long
  to parse to a finite number gives `Infinity`, whose product with a zero
  count makes the total NaN.
- Scorer.CalculatePerformance: requires every combination to hold at most 15
  numbers. A longer combination can only come from hand-edited storage; with
  more than 15 hits it would add a non-numeric (NaN) bucket outside 11..15,
  and that is not modelled.
- Application.App.constructor: requires the stored combinations to hold at
  most 15 numbers each, for the same reason.
- Scorer.CalculateTotalPrizes: requires the performance keys to lie in 11..15.
  Its only input is the output of `calculatePerformance`, and any other key
  would make the total NaN, which is not modelled.
- Array.prototype.sort's own algorithm is not part of this model. It is
  modelled by `SortAscending`, an insertion sort. Any correct ascending sort
  of integers gives the same result, because the sorted permutation of a
  sequence is unique.
