# Unobstructed sub-rectangles of rect-lib, in Dafny

This project models the core of the `rect-lib` crate. That core is the sweep
`unobstructed_subrectangles_impl`: it takes a parent rectangle and a list of
obstructions and returns the sub-rectangles of the parent that the obstructions
leave free. The project also models the crate's concrete `BasicRectangle`.

Every rectangle is given by four inclusive sides, and `top` is the larger y.
The sweep runs in four sections:

1. **Event lines** (`event_lines.dfy`). The sweep puts an opening line at the
   parent's left side. Each obstruction adds a closing line at its `left` and an
   opening line at `right + 1`. The lines are sorted by x, runs with equal x
   are collapsed to their first line, and lines outside the parent's x-range are
   dropped.
2. **Gaps** (`gaps.dfy`). At each line, the obstructions that span the line are
   read like shingles, from the highest top down. A cursor starts at the
   parent's top and yields the free vertical intervals.
3. **Active rectangles** (`sweep.dfy`). At an opening line, each gap whose
   shape `(top, bottom)` is not yet active starts a rectangle. At a closing
   line, each active rectangle that still fits a gap stays. Every other one is
   emitted with `right = x - 1` and continued into every gap, and each
   continuation keeps the closed rectangle's `left`.
4. **Flush**. What is still active at the end is emitted with the parent's
   right side.

The obstructions are sorted by descending top, and the active rectangles by
descending left before each line (`sorting.dfy`). One stable insertion sort
serves all three sorts. The source's sorts are unstable. The stable sort is one
of the orders they may produce, and it makes the parent's opening line win the
tie at `parent.left`.

The sweep works on `Rectangles.Rect(left, right, top, bottom)` over unbounded
integers. The side-based constructor `new_from_sides` is that datatype
constructor, so every side survives the round trip exactly.

`basic_rectangle.dfy` models `BasicRectangle` with `i32` fields. Its
requires clauses state where the source's `i32` arithmetic stays in range.

`scenarios.dfy` proves the three decompositions the crate's tests describe.
They are stated over the exact `Rect`. The crate's own sweep tests build
their rectangles with `BasicRectangle::new_from_sides`, which reads back with
the off-by-one under "## Findings": `new_from_sides(0, 1, 2, 0)`
(tests/unobstructed_subrectangles.rs:5) reads back right 0 and bottom 1.
Read against the code as written, this makes two of the three tests fail:

- the no-obstruction test (tests/unobstructed_subrectangles.rs:3-13) gets
  back a rectangle whose `right()` is -1 and whose `bottom()` is 2;
- the part-obstructed test (:23-33) gets back rectangles no wider than the
  read-back parent, so neither expected rectangle is among them.

The fully-obstructed test (:15-21) still passes. Its parent and obstruction
both read back as `(0, 0, 2, 1)`, and `Scenarios.FullyObstructed` holds for
every parent, so the output is empty for that one too.

The continuation filter at src/unobstructed_sweep_line.rs:158 accepts a gap
when `gap.top <= rect.top || rect.bottom <= gap.bottom`. That branch only runs
for a rectangle that fits no gap, so every gap passes the filter
(`Sweep.NotFittingPassesFilter`). Every gap
therefore yields a continuation, even a gap wholly below or above the closed
rectangle. Such a continuation has `top < bottom`. The model keeps this
behaviour.

## Model

| member | source | states |
|---|---|---|
| `Sorting.Sort` | src/unobstructed_sweep_line.rs:34-37 | the result is a permutation (same multiset) of the input and is in ascending key order; with the key `-top`, the obstructions come out by descending top |
| `Sorting.SortKeepsFirst` | src/unobstructed_sweep_line.rs:60 | for every key, the first element with that key is the same before and after sorting, so sorting the lines by x keeps construction order among equal x |
| `Sorting.Find` | src/unobstructed_sweep_line.rs:61 | the result is absent exactly when no element has the key; when present, it is the element at the first index carrying the key |
| `EventLines.ObstructionLines` | src/unobstructed_sweep_line.rs:45-57 | obstruction i contributes, at positions 2i and 2i+1, a closing line at its `left` and an opening line at its `right + 1` |
| `EventLines.RawLines` | src/unobstructed_sweep_line.rs:40-57 | the first line is the parent's opening line at `parent.left`; a line is constructed if and only if it is that line, or the closing line at some obstruction's `left`, or the opening line at some obstruction's `right + 1` |
| `EventLines.Dedup` | src/unobstructed_sweep_line.rs:61 | on lines sorted by x, the result is strictly increasing in x, starts with the input's first line and holds only input lines |
| `EventLines.DedupKeepsFirst` | src/unobstructed_sweep_line.rs:61 | collapsing equal x keeps, for every x, the first line with that x |
| `EventLines.Within` | src/unobstructed_sweep_line.rs:64-66 | a line is kept if and only if `lo <= x <= hi`, and strictly increasing order is preserved |
| `EventLines.WithinKeepsFirst` | src/unobstructed_sweep_line.rs:64-66 | for x in range the first line at x is unchanged; outside the range there is none |
| `EventLines.Events` | src/unobstructed_sweep_line.rs:40-66 | the event lines are strictly increasing in x, lie in `[parent.left, parent.right]`, and each is one of the constructed lines |
| `EventLines.EventsKeepFirst` | src/unobstructed_sweep_line.rs:40-66 | for every x in the parent's range, the event line at x is the first line constructed at x, flag included; outside that range there is no event line |
| `EventLines.ParentLineFirst` | src/unobstructed_sweep_line.rs:40-43 | when `parent.left <= parent.right`, the first event line is the parent's opening line at `parent.left` |
| `Gaps.Covering` | src/unobstructed_sweep_line.rs:83-86 | an obstruction is kept if and only if its x-span contains the line, and descending-top order is preserved |
| `Gaps.Shingle` | src/unobstructed_sweep_line.rs:87-106 | every gap has `bottom <= top <= cursor` |
| `Gaps.GapsAt` | src/unobstructed_sweep_line.rs:80-106 | every gap at a line has `bottom <= top <= parent.top` |
| `Gaps.ShingleSound` | src/unobstructed_sweep_line.rs:87-97 | with obstructions in descending-top order, a height inside a gap is inside no obstruction of the scan |
| `Gaps.GapsSound` | src/unobstructed_sweep_line.rs:83-97 | with obstructions in descending-top order, every height in a gap at x is free of every obstruction spanning x |
| `Gaps.ShingleComplete` | src/unobstructed_sweep_line.rs:87-106 | a height between the floor and the cursor that no scanned obstruction covers lies in some gap |
| `Gaps.GapsComplete` | src/unobstructed_sweep_line.rs:80-106 | every height in `[parent.bottom, parent.top]` free of the obstructions spanning x lies in some gap at x, in any obstruction order |
| `Gaps.ShingleTopToBottom` | src/unobstructed_sweep_line.rs:87-105 | with `bottom <= top` obstructions, each gap lies strictly below the one before it |
| `Gaps.GapsTopToBottom` | src/unobstructed_sweep_line.rs:80-106 | with well-formed spanning obstructions, the gaps at x come out top to bottom and no height lies in two of them |
| `Sweep.DecomposeGapsSound` | src/unobstructed_sweep_line.rs:32-37 | the gaps computed over the sorted obstructions hold no height covered by any input obstruction spanning the line |
| `Sweep.OpenOne` | src/unobstructed_sweep_line.rs:114-125 | one gap: the old actives stay as a prefix; the gap's shape is active afterwards; the only possible new entry starts at x with the gap's shape; unique shapes stay unique |
| `Sweep.Open` | src/unobstructed_sweep_line.rs:112-130 | the old active list is a prefix of the result, and unique shapes stay unique |
| `Sweep.OpenAdds` | src/unobstructed_sweep_line.rs:114-125 | every entry not active before starts at x with the shape of some gap |
| `Sweep.OpenCovers` | src/unobstructed_sweep_line.rs:114-125 | after an opening line, every gap's shape is active |
| `Sweep.NotFittingPassesFilter` | src/unobstructed_sweep_line.rs:139-158 | a rectangle that fits no gap passes the filter `gap.top <= rect.top` or `rect.bottom <= gap.bottom` for every gap |
| `Sweep.ContinueOne` | src/unobstructed_sweep_line.rs:156-174 | one gap: earlier continuations stay as a prefix; the only possible new entry is the continuation into the gap, with a shape not active at this line; when the gap passes the filter, its continuation's shape is afterwards active or spawned |
| `Sweep.Continue` | src/unobstructed_sweep_line.rs:156-175 | earlier continuations stay as a prefix, and unique shapes stay unique |
| `Sweep.ContinueAdds` | src/unobstructed_sweep_line.rs:156-174 | each new entry is `(rect.left, min(rect.top, gap.top), max(rect.bottom, gap.bottom))` for some gap, with a shape not active at this line; every earlier continuation stays |
| `Sweep.ContinueCovers` | src/unobstructed_sweep_line.rs:156-174 | every gap passing the filter has its continuation's shape active at this line or spawned |
| `Sweep.CloseOne` | src/unobstructed_sweep_line.rs:137-179 | one pass of the filter closure; no contract of its own, its behaviour is stated by `CloseOneSpawns` and `CloseAll`; `Fits` encodes the test at :139-141, `Closed` the rectangle built at :148-153, and `Continuation` the one built at :160-172 |
| `Sweep.CloseAll` | src/unobstructed_sweep_line.rs:135-181 | an active rectangle is kept exactly when it fits a gap; a rectangle is emitted exactly when it is some non-fitting active closed at `x - 1` |
| `Sweep.CloseOneSpawns` | src/unobstructed_sweep_line.rs:139-175 | one active rectangle spawns only when it fits no gap, only its continuations into gaps with shapes not active at this line, and drops nothing spawned before |
| `Sweep.CloseAllKeepsSpawned` | src/unobstructed_sweep_line.rs:133-181 | a closing line never drops a continuation spawned earlier |
| `Sweep.CloseAllSpawns` | src/unobstructed_sweep_line.rs:147-181 | every spawned entry continues a non-fitting active into a gap and has a shape not active before the line |
| `Sweep.CloseAllContinues` | src/unobstructed_sweep_line.rs:147-181 | for every non-fitting active and every gap, the continuation's shape is active at the line or spawned |
| `Sweep.OpeningLine` | src/unobstructed_sweep_line.rs:109-130 | an opening line keeps every active rectangle and emits nothing; afterwards every gap's shape is active, and each new rectangle starts at the line with a gap's shape |
| `Sweep.ClosingLine` | src/unobstructed_sweep_line.rs:133-184 | a closing line keeps exactly the actives that fit a gap and emits exactly the others with `right = x - 1`; each added active continues an emitted one, keeping its left side |
| `Sweep.ClosingLineContinues` | src/unobstructed_sweep_line.rs:147-184 | conversely, every emitted rectangle's continuation into every gap has its shape active after the line |
| `Sweep.Step` | src/unobstructed_sweep_line.rs:74-185 | one line: gaps, the descending-left sort (:109), then opening or closing; no contract of its own, its behaviour is stated by `StepKeepsDone`, `OpeningLine`, `ClosingLine`, `ClosingLineContinues`, `StepBounds` and `StepUnique` |
| `Sweep.StepKeepsDone` | src/unobstructed_sweep_line.rs:74-185 | rectangles already emitted stay as a prefix of the output after one line, and an opening line emits nothing |
| `Sweep.Run` | src/unobstructed_sweep_line.rs:74 | the loop over the lines; no contract of its own, its behaviour is stated by `RunKeepsDone`, `RunBounds` and `RunUnique` |
| `Sweep.RunKeepsDone` | src/unobstructed_sweep_line.rs:74-185 | nothing emitted is taken back, and a run of opening lines only emits nothing |
| `Sweep.Flush` | src/unobstructed_sweep_line.rs:188-195 | one output per remaining active rectangle, in order, each being that rectangle with right side `right` (closed as if at the line `right + 1`) |
| `Sweep.StepBounds` | src/unobstructed_sweep_line.rs:109-184 | after a line at x, every active starts in `[parent.left, x]` below the parent's top, and every emitted rectangle is within the parent's x-range and below its top |
| `Sweep.RunBounds` | src/unobstructed_sweep_line.rs:74-185 | over strictly increasing lines in the parent's x-range, every emitted rectangle stays within the parent's x-range and below its top |
| `Sweep.FlushBounds` | src/unobstructed_sweep_line.rs:188-195 | rectangles flushed at the parent's right side are in bounds when their left sides are |
| `Sweep.Decompose` | src/unobstructed_sweep_line.rs:6-199 | every output rectangle has `parent.left <= left <= right <= parent.right` and `top <= parent.top`, for every input |
| `Sweep.SortUnique` | src/unobstructed_sweep_line.rs:109 | sorting the actives by descending left keeps their shapes pairwise distinct |
| `Sweep.CloseAllUnique` | src/unobstructed_sweep_line.rs:135-184 | the kept actives followed by the new continuations have pairwise distinct shapes |
| `Sweep.StepUnique` | src/unobstructed_sweep_line.rs:109-184 | one opening or closing line keeps the active shapes pairwise distinct |
| `Sweep.RunUnique` | src/unobstructed_sweep_line.rs:74-185 | any number of lines keeps the active shapes pairwise distinct |
| `Sweep.ActiveShapesUnique` | src/unobstructed_sweep_line.rs:116-125 | after each prefix of a decomposition's event lines, no two active rectangles share a `(top, bottom)` pair |
| `Scenarios.NoObstructions` | tests/unobstructed_subrectangles.rs:3-13 | without obstructions, the output is exactly `[parent]` when the parent's sides are ordered, and empty otherwise |
| `Scenarios.CoveredGaps` | src/unobstructed_sweep_line.rs:87-106 | an obstruction equal to the parent leaves no gap at any line in the parent's x-range |
| `Scenarios.FullyObstructedAnyLines` | src/unobstructed_sweep_line.rs:112-184 | with the parent as its own obstruction, any lines in its x-range, opening or closing, leave no active rectangle and emit nothing |
| `Scenarios.FullyObstructed` | tests/unobstructed_subrectangles.rs:15-21 | an obstruction equal to the parent leaves an empty output |
| `Scenarios.PartObstructedLines` | src/unobstructed_sweep_line.rs:60-61 | in the part-obstructed example the event lines are an opening line at 0, where the parent's line wins, and an opening line at 3 |
| `Scenarios.PartObstructed` | tests/unobstructed_subrectangles.rs:23-33 | parent `[0,5]x[0,5]` with obstruction `[0,2]x[1,5]` gives exactly `[0,5]x[0,0]` and `[3,5]x[0,5]`, two rectangles that overlap |
| `BasicRectangles.Left` | src/basic_rectangle.rs:14-16 | returns the stored `x`; no contract of its own |
| `BasicRectangles.Right` | src/basic_rectangle.rs:18-20 | returns `x + width - 1`; requires that `x + width` and `x + width - 1` stay in `i32`; its meaning is stated by `SpanIsExtentLessOne` and `NewFromSides` |
| `BasicRectangles.Top` | src/basic_rectangle.rs:22-24 | returns the stored `y`; no contract of its own |
| `BasicRectangles.Bottom` | src/basic_rectangle.rs:26-28 | returns `y - height + 1`; requires that `y - height` and `y - height + 1` stay in `i32`; its meaning is stated by `SpanIsExtentLessOne` and `NewFromSides` |
| `BasicRectangles.NewFromSides` | src/basic_rectangle.rs:30-37 | `left` and `top` come back exactly; `right` comes back as `right - 1` and `bottom` as `bottom + 1` |
| `BasicRectangles.SpanIsExtentLessOne` | src/basic_rectangle.rs:14-28 | for any value, `right() - left() = width - 1` and `top() - bottom() = height - 1` |
| `BasicRectangles.RoundTripExampleFails` | tests/basic_rectangle.rs:3-10 | `new_from_sides(0, 1, 2, 3)` reads back `right() = 0` and `bottom() = 4`, not 1 and 3 |
| `BasicRectangles.CorrectedRight` | src/basic_rectangle.rs:18-20 | the corrected accessor `x + width`, as `new_from_sides` stores the width; requires that sum in `i32`; its round trip is `CorrectedRoundTrip` |
| `BasicRectangles.CorrectedBottom` | src/basic_rectangle.rs:26-28 | the corrected accessor `y - height`, as `new_from_sides` stores the height; requires that difference in `i32`; its round trip is `CorrectedRoundTrip` |
| `BasicRectangles.CorrectedRoundTrip` | src/basic_rectangle.rs:18-35 | with `right = x + width` and `bottom = y - height`, all four sides survive `new_from_sides` |

## Left out

- src/lib.rs declares the trait with `from_sides` and no behaviour. The sweep's
  `Rectangle` trait with an associated `Unit` and `new_from_sides` is not part
  of this model. Its side contract is `Rectangles.Rect`.
- The derived rectangle operations (width, area, translate, containment,
  overlap, intersection) are not part of this model. They are not in the
  modelled source files.
- The generic `Num + One + Ord` coordinate is modelled as unbounded `int`.
  `right + 1` (src/unobstructed_sweep_line.rs:54) and `bottom - 1` (:96) could
  overflow a bounded coordinate type. The model does not track that.
- Rust's `sort_unstable_by`, `sort_unstable_by_key` and `dedup_by_key` are
  specified by their results. The model uses one particular legal order: a
  stable sort. Another order can change which line survives among lines with
  equal x, and which of two same-shaped continuations is kept. The
  fully-obstructed result is proved for every choice.
- `Vec` ownership, `to_vec`, `.cloned().collect()` and `append` are plain
  sequence operations here.
- The model claims no output disjointness, no area conservation, no avoidance
  of obstructions by outputs, and no `bottom <= top` on outputs. The code does
  not deliver these:
  - the part-obstructed result overlaps;
  - the filter at :158 lets gaps outside the closed shape through;
  - a closing line can be dropped by deduplication.
- `Gaps.GapsSound` and `Gaps.GapsComplete` are not combined into an
  if-and-only-if. Obstructions are not clipped to the parent in y, so a gap
  can reach below `parent.bottom`.

## Findings

| source | as written | input that shows it | evidently intended | confidence | as-written member | corrected member |
|---|---|---|---|---|---|---|
| src/basic_rectangle.rs:18-20 | `right()` is `x + width - 1`, while `new_from_sides` stores `width = right - left` | `new_from_sides(0, 1, 2, 3).right()` is 0, not 1 | `right()` returns the right side given to `new_from_sides` (tests/basic_rectangle.rs:7) | high, not executed | `BasicRectangles.RoundTripExampleFails` | `BasicRectangles.CorrectedRight` |
| src/basic_rectangle.rs:26-28 | `bottom()` is `y - height + 1`, while `new_from_sides` stores `height = top - bottom` | `new_from_sides(0, 1, 2, 3).bottom()` is 4, not 3 | `bottom()` returns the bottom side given to `new_from_sides` (tests/basic_rectangle.rs:9) | high, not executed | `BasicRectangles.RoundTripExampleFails` | `BasicRectangles.CorrectedBottom` |

The corrected accessors are `BasicRectangles.CorrectedRight` and
`BasicRectangles.CorrectedBottom`. The sweep itself uses `Rectangles.Rect`, and
its constructor gives back every side exactly.
