# Cutting planner — a Dafny model

This project models the cutting planner of `src/core/`: given required
pieces `{length, number}`, it plans how to cut them from stock bars of
length `limit`, losing `saw` of material at each cut. It is a
greedy one-dimensional bin-packing heuristic, longest piece first, in
five parts:

- `aligner` (module `PieceExpander`) expands the specs into unit items
  `{index, length}` and sorts them longest first with a stable sort;
- `closest` (module `BestFit`) scans candidates down from a target in steps
  of `10^-fractionDigits` and returns the first item whose length equals the
  candidate, or the sentinel `0` (here `None`);
- `remove` (module `PoolRemoval`) splices out, in place, the first item whose
  `index` matches the target's;
- `sum` (module `GroupSum`) folds the lengths of a group;
- `sequencer` (module `Planner`) is the greedy loop: it seeds a group with
  the first pool item, fills it by best fit while the headroom
  `limit - saw * |stack| - sum(stack)` is positive, closes it when nothing
  fits or no headroom is left, and flushes the open group when the pool
  empties.

Lengths, `limit` and `saw` are integers counted in units of
`10^-fractionDigits`; the sequencer always calls `closest` with the default
of one fractional digit, so its unit is a tenth and the sample order of
`src/core/index.js` becomes lengths 65, 400, 500, 100, 90, 5 against a
`limit` of 1000 and a `saw` of 10 (module `Demo`). In these units the
source's `toFixed` rounding of each candidate is exact.

The pool is a class `PoolRemoval.Pool` whose `items` field `remove`
reassigns, as the JavaScript array is changed in place; the sort of
`aligner` is an in-place insertion sort on an `array`; `stack` and `result`
of the sequencer are local sequences grown by appending. The sequencer's
proof works on an abstract view, `Planner.Groups`: the closed groups plus
the open one, which evolves by a seed step, a fill step, or a close step
that leaves it unchanged; `Planner.Planned` is the invariant of that view,
and `Planner.Progress` reads it off the loop's own variables.

Two places where the code does less than one might expect; the model
follows the code:

- Capacity: charging one kerf per piece would ask every group to keep
  `sum + saw * count <= limit`. The code charges `saw` only for the items
  already in the group when it computes the headroom for the next one, so
  what holds, when every length, `limit` and `saw` lies on the tenth grid,
  is `sum + saw * (count - 1) <= limit` for every group of two or more
  items; the sample's first group (50, 40, 6.5, 0.5: 97 with 4 items)
  meets the coded bound with nothing to spare and exceeds the per-piece one.
- Empty input: an empty order might be expected to give no groups; the code's
  `do … while` runs once and returns a group holding `undefined`. The model
  requires a non-empty pool.

## Model

| member | source | states |
|---|---|---|
| `GroupSum.Fold` | src/core/sum.js:3 | with no negative length, the `reduce` fold never drops below its accumulator and ends at least the accumulator plus any one item's length |
| `GroupSum.Sum` | src/core/sum.js:1-4 | the empty group has payload 0; with no negative length the payload is non-negative and at least each item's length |
| `GroupSum.FoldShift` | src/core/sum.js:3 | the `reduce` fold from any accumulator is that accumulator plus the payload of the group |
| `GroupSum.SumAppend` | src/core/sum.js:3 | appending an item raises the payload by exactly its length |
| `GroupSum.SumConcat` | src/core/sum.js:2-3 | the payload of a concatenation is the sum of the payloads (the empty group contributes 0) |
| `PoolRemoval.Pool.constructor` | src/core/sequencer.js:7 | the planner's pool starts as a fresh copy of the input |
| `PoolRemoval.FindIndex` | src/core/remove.js:2 | `findIndex` by `index`: -1 exactly when no item carries the index, otherwise the lowest position that does |
| `PoolRemoval.Removed` | src/core/remove.js:2-3 | with no match the pool is unchanged; otherwise it is one shorter, items before the match stay, items after it shift down by one, and the multiset loses exactly the matched item |
| `PoolRemoval.Remove` | src/core/remove.js:1-4 | the pool object is changed in place to the removal of the first item with the target's index |
| `PoolRemoval.RemovedTarget` | src/core/remove.js:2-3 | when the target is in the pool and indices determine lengths, exactly the target leaves the pool |
| `PoolRemoval.RemovedHead` | src/core/remove.js:2-3 | removing the pool's first item leaves the rest of the pool in order |
| `PoolRemoval.RemovedDescending` | src/core/remove.js:3 | removal keeps a longest-first pool longest first |
| `PoolRemoval.RemovedOrdered` | src/core/remove.js:3 | removal keeps a pool in the stable sort's order (longest first, equal lengths by index) in that order |
| `PoolRemoval.RemovedSubset` | src/core/remove.js:3 | removal never adds an item: the result is a sub-multiset of the pool |
| `BestFit.FirstWithLength` | src/core/closest.js:7 | the `find` probe: -1 exactly when no item has the candidate length, otherwise the lowest position that does |
| `BestFit.Find` | src/core/closest.js:7 | the `find` callback's result: nothing exactly when no item has the candidate length, otherwise an item of the array with that length and the first such in array order |
| `BestFit.Closest` | src/core/closest.js:1-15 | the scan from `target` down to the first candidate <= 0 returns an item of the pool whose length is a scanned candidate, with no pool item strictly between it and `target`, and the first in pool order among items of that length; the sentinel exactly when no length lies in the scanned range (only `target` itself when `target <= 0`) |
| `PieceExpander.Expand` | src/core/aligner.js:3-7 | the pushes produce as many items as the `number` fields add up to (a non-positive `number` pushes none) |
| `PieceExpander.ExpandItems` | src/core/aligner.js:3-7 | every pushed item carries a spec position and that spec's length, in spec order |
| `PieceExpander.ExpandCount` | src/core/aligner.js:4-5 | exactly `number` items (none when it is not positive) carry index `i` with spec `i`'s length |
| `PieceExpander.SortLongestFirst` | src/core/aligner.js:8 | the in-place sort permutes the array into longest-first order and, being stable, keeps equal lengths in index order |
| `PieceExpander.Sink` | src/core/aligner.js:8 | one insertion pass extends the sorted prefix by one item, moving it only past shorter items |
| `PieceExpander.Aligner` | src/core/aligner.js:1-10 | the result is a permutation of the pushed items: `sum(number)` items, `number` of them per spec with that spec's length, ordered longest first with ties by index |
| `Planner.SeedStep` | src/core/sequencer.js:30-34 | pushing the pool's first item onto an empty stack and removing it keeps the planning invariant |
| `Planner.AddStep` | src/core/sequencer.js:14-21 | adding a pool item that fits the positive headroom and removing it from the pool keeps the planning invariant, including the coded capacity bound |
| `Planner.SeedGreedy` | src/core/sequencer.js:30-34 | seeding a group from the pool keeps the best-fit rule of every earlier probe, since the pool only shrinks |
| `Planner.AddGreedy` | src/core/sequencer.js:17-21 | taking the best fit `next` for the headroom keeps every earlier probe's rule and adds the new one: no pool item lies strictly between `next` and that headroom |
| `Planner.CloseGreedy` | src/core/sequencer.js:17-29 | closing a group when its headroom is not positive, or when no pool item fits it, records the closing probe: nothing still in the pool fits the headroom the group was left with |
| `Planner.SeedStable` | src/core/sequencer.js:31-33 | seeding with the head of a pool in the stable sort's order keeps the tie rule: no item of the seed's length left in the pool has a lower index |
| `Planner.AddStable` | src/core/sequencer.js:18-21 | filling with the first item of its length in such a pool (the `find` of src/core/closest.js:7) keeps the tie rule for every slot |
| `Planner.AddProgress` | src/core/sequencer.js:17-37 | a best-fit item that fits the positive headroom, pushed and removed from the pool, keeps the loop invariant, with the open group flushed when the pool empties |
| `Planner.CloseProgress` | src/core/sequencer.js:17-29 | closing the open group, when no headroom is left or nothing fits it, keeps the loop invariant |
| `Planner.PlannedDone` | src/core/sequencer.js:35-40 | once the pool is empty, the formed groups are a finished plan |
| `Planner.Sequencer` | src/core/sequencer.js:6-41 | the loop terminates and returns a plan: no empty group, the first seeded with the first input item, no item lost or duplicated, every group of two or more keeping `sum + saw * (count - 1) <= limit`, each item past a seed joining only while the headroom is positive and no longer than that headroom, an item taken with headroom `h` at least as long as every later-placed item that fits `h`, a group closed with positive headroom only when no later-placed item fits it, a seed with no headroom closed alone, for a longest-first pool, every seed at least as long as every item of its own and later groups, and, for a pool in the stable sort's order, among equal lengths each placed item's index no larger than that of any item of its length placed after it (seeds are the pool's head, fills the first match of `find`) |
| `Planner.ClosedWhenNothingFits` | src/core/sequencer.js:17-25 | in a finished plan, no item of a later group fits the headroom an earlier group closed with |
| `Demo.SampleTotal` | src/core/index.js:4-29 | the sample order expands to 13 units |
| `Demo.SampleHead` | src/core/index.js:4-29 | any longest-first pool of the sample starts with the 50 of index 2 |
| `Demo.Sample100` | src/core/index.js:31 | planning the sample for bars of 100 with a saw of 1 places all 13 units, keeps the coded capacity bound in every group, and seeds the first group with a 50 |
| `Demo.PairPlan` | src/core/sequencer.js:12-38 | the only plan of a 50 and a 40 for bars of 100 with a saw of 1 is one bar holding both, the 50 first: the 40 fits the 49 of headroom the 50 leaves, so the bar cannot close without it |
| `Demo.TieInIndexOrder` | src/core/closest.js:7 | of two 10s after a 50, a bar taking the one of index 2 before the one of index 1 is no plan: `find` takes the first in pool order |
| `Demo.ClosedAtZeroHeadroom` | src/core/sequencer.js:17-28 | a 50 and a 48 leave exactly no headroom against 100 with a saw of 1, so a further zero-length piece cannot join that bar |
| `Demo.PairOnOneBar` | src/core/aligner.js:1-10 | aligning and planning that pair returns exactly that one bar |
| `Demo.Oversized` | src/core/sequencer.js:26-28 | a single 150 piece against bars of 100 is emitted as one group of itself, over capacity, not rejected |

## Left out

- `BestFit.Closest`: the `fractionDigits` argument is fixed by the choice of unit (lengths are integers in units of `10^-fractionDigits`). `toFixed` rounds only the candidate `range`, never an item's length, so in the source an item whose length is off that grid is never matched (though it can still become a seed), and a `target` off the grid is rounded to the nearest grid value, half up on a tie; neither case, nor the floating-point drift of repeated `range - Math.pow(10, -fractionDigits)`, is modelled.
- `Planner.Sequencer`: the capacity bound and the fill and close rules are proved for lengths, `limit` and `saw` on the tenth grid only. Off the grid, a seed, `limit` or `saw` makes `difference` off the grid, and its rounding can take an item up to half a unit longer than the headroom: `limit` 100, `saw` 1 and a seed of 50.25 give a `difference` of 48.75, which rounds to 48.8, so a 48.8 piece joins and the group reaches 100.05. Off-grid items in the pool are never taken to fill a group, so a group can close while one of them would fit.
- `Planner.Sequencer`: requires a non-empty pool; the code's result for an empty pool (a single group holding `undefined`) is not modelled.
- `Planner.Sequencer`: the item-for-item partition is stated only when items that share an index share their length (true of every `aligner` output), because `remove` matches by index alone and could otherwise take out a different item than the one pushed; the count of items is preserved in every case.
- `Planner.Sequencer`: the weaker bound `sum + saw * (count - 1) <= limit` is what the code enforces; the per-piece bound `sum + saw * count <= limit` does not hold of the code and is not claimed.
- `src/core/copy.js` is not part of this model; copying the input is modelled as a fresh pool holding the same items.
- `src/core/index.js` ends by logging the result; logging is left out and its data is used as a concrete input.
- The React components, step navigation, file upload and JSON parsing, the form validation helpers, the Web Worker wrapper around an external package, the drawing arithmetic in floating point, and the build configuration are outside the planner and are not modelled.
