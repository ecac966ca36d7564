# Swarm — a Dafny model of the bee simulation

Swarm projects a swarm of simulated bees onto a wall or screen. A camera
(Kinect) delivers an edge mask of the people in front of it. The bees fly
around and settle on, crawl along or are drawn to those edges. The
repository holds several revisions of this idea side by side. This project
models the simulation logic of each revision and the small grid, list and
parser helpers around it, and proves what each of them promises:

| Dafny file | module | models |
|---|---|---|
| `swarm_sim.dfy` | `SwarmSim` | `swarm/src/swarm.cpp`: the per-bee state machine (idle, crawling, flying, accelerating), the spawn placement, movement and the sprite frames |
| `toroidal.dfy` | `Toroidal` | `wrap_value` of `swarm/src/swarm.cpp` and the position/angle wrap loops of the Python `c_entity.update` |
| `common.dfy` | `Common` | C/C++ and Python integer semantics shared by all of the above: truncating conversion, C `/` and `%`, a clamped grid index, `uniform_random` |
| `bee_handle.dfy` | `Attractors` | `oldsrc/BeeHandle.cpp`: the attractor grid with its sliding history of frames, claim and release, the thread ranges, `movePoints` |
| `swarm_strategy.dfy` | `SwarmStrategy` | `oldsrc/SwarmStrategy.h`: the point and attractor lists |
| `bee_handle_simple.dfy` | `BeeHandleSimple` | `oldsrc/BeeHandleSimple.hpp`: the potential-driven mover with its eight-way direction memory |
| `int_swarm.dfy` | `IntSwarm` | `swarm/src/Swarm.cpp`: bees with integer velocity that bounce off the frame border |
| `camera_field.dfy` | `CameraField` | `swarm/src/camera.cpp`: the attract kernel, the vector-frame stamping and the idle check |
| `audio_mix.dfy` | `AudioMix` | `swarm/src/audio.cpp`: per-state volume with slew limiting, and chunk disposal |
| `main_loop.dfy` | `MainLoop` | `oldsrc/main.cpp`: `filter`, `isInteger`, `drop_contours_1d`, the point duplication and the frame counters of the main loop |
| `detect_utils.dfy` | `DetectUtils` | `oldsrc/utils.cpp`: IOU, greedy box suppression, label files, label-map parsing, the detection decisions. The suppression is stated for either overlap measure: `AsWritten`, the source's `IOU`, or `Clamped`, the corrected one of the findings |
| `graphics_module.dfy` | `Graphics` | `oldsrc/graphics/graphics_module.cpp`: particle buffer, text list, QR flags, recording counter |
| `py_swarm.dfy` | `PySwarm` | `swarm.py`: the timer-toggle bee, entity wrap and one-bee-per-tick population |
| `py_nectar.dfy` | `PyNectar` | `swarm_nectar.py`: nectar ring, nectar map and bees that feed on it |
| `proto_entity.dfy` | `ProtoEntity` | `protoswarm/entity.py`: the 2-D vector and the entity |
| `proto_bees.dfy` | `ProtoBees` | `protoswarm/bees.py`: bees that stop on lit pixels, and the population ramp |
| `proto_life.dfy` | `ProtoLife` | `protoswarm/life.py`: Game of Life on a torus seeded by the edge frame |

Code that changes state in place is modelled as Dafny classes with
`modifies` clauses and loops with invariants. Each such method is tied to a
specification function, and the properties are proved about that function.
Pure code is modelled as functions and lemmas.

Random draws (`rand()`, `random.uniform`) are parameters. A `rand()/RAND_MAX`
fraction is a real in `[0, 1]`, a `rand()` result is a natural number, and a
stream of draws is a function from the draw's index. `cos`, `sin` and `atan2`
results are parameters too, bounded where the proof needs it. Floating-point
values are reals; integer wrap-around is written out where the source
depends on it (`int8_t` in the camera kernel). Threads run one after another,
in thread order.

## Model

| member | source | states |
|---|---|---|
| Common.CTrunc | swarm/src/audio.cpp:79 | `int()`/C conversion truncates toward zero: the result is the integer between 0 and `x` less than one away from `x` |
| Common.ClampIndex | swarm_nectar.py:216-225 | the truncated coordinate clamped to `[0, bound - 1]`; equals the truncation when that is already in range, 0 below it, `bound - 1` above it |
| Common.CDiv | oldsrc/BeeHandleSimple.hpp:197 | C `/` truncates toward zero: agrees with Euclidean division for non-negative operands and leaves a remainder of the dividend's sign otherwise |
| Common.CMod | oldsrc/BeeHandleSimple.hpp:88-89 | C `%`: `a == CDiv(a, b) * b + m`, with `m` of the sign of `a` and smaller than `|b|` |
| Common.Uniform | swarm/src/swarm.cpp:36-40 | `uniform_random(lo, hi)` for a fraction `u` in `[0, 1]` lies in `[lo, hi]`; `u = 0` gives `lo` and `u = 1` gives `hi` |
| Toroidal.WrapOf | swarm/src/swarm.cpp:42-47 | closed form of `wrap_value`: a value in `[-gutter, maximum + gutter)` |
| Toroidal.WrapOfFixesRange | swarm/src/swarm.cpp:44-45 | a value already in `[-gutter, maximum + gutter)` is returned unchanged |
| Toroidal.WrapOfPeriod | swarm/src/swarm.cpp:44-45 | adding one period `maximum + 2 * gutter` does not change the wrapped value |
| Toroidal.WrapValue | swarm/src/swarm.cpp:42-47 | the two `while` loops of `wrap_value` compute `WrapOf` |
| Toroidal.FoldDown | swarm.py:155-158 | the representative modulo the period in `(-gutter, maximum + gutter]`, reached by the loop that subtracts while above the range |
| Toroidal.FoldDownPeriod | swarm.py:157-158 | subtracting one period does not change `FoldDown` |
| Toroidal.FoldDownFixesRange | swarm.py:157-158 | a value already in `(-gutter, maximum + gutter]` is unchanged |
| Toroidal.WrapClosedOf | swarm.py:154-161 | closed form of the Python position wrap: the result lies in the closed range `[-gutter, maximum + gutter]` (the upper bound is kept because the test is `>`), and a value in that range is unchanged |
| Toroidal.WrapClosed | swarm.py:154-161 | the two `while` loops of one axis of `c_entity.update` compute `WrapClosedOf` |
| SwarmSim.CellIndex | swarm/src/swarm.cpp:82 | `static_cast<int>(v / extent * count)` for `0 <= v < extent` is a valid row or column index in `[0, count)` |
| SwarmSim.OnEdge | swarm/src/swarm.cpp:80-82 | the edge test holds only for a bee inside the simulation rectangle, and then reads the pixel at a valid index |
| SwarmSim.Transition | swarm/src/swarm.cpp:84-127 | on an edge pixel: flying, accelerating or expired crawling bees settle idle with zero speed and rotation and a timer in `[0.2, 0.8]`; an expired idle bee starts crawling with walk speed and spin in range; otherwise only the timer drops by `k_dt`. Off the edge: a flying bee keeps flying and redraws speed in `[120, 180]` when its timer expired; any other bee accelerates, becomes flying only if already at `k_fly_speed_minimum`, and never slows; the timer always drops by `k_dt` |
| SwarmSim.TransitionKeepsSpeedNonNegative | swarm/src/swarm.cpp:84-127 | no transition makes the speed negative |
| SwarmSim.NextSpriteOffset | swarm/src/swarm.cpp:137-147 | advancing a sprite offset keeps it a multiple of `b_frame_w` in `[0, texture_w)`; it moves one frame or returns to 0 |
| SwarmSim.NextSpriteOffsetCycles | swarm/src/swarm.cpp:137-147 | on a sheet of `count` frames, frame `k` advances to frame `(k + 1) % count` |
| SwarmSim.InitialSpriteOffset | swarm/src/swarm.cpp:67-69 | `(rand() % count) * b_frame_w` is the left edge of a frame of the sheet |
| SwarmSim.EdgePlacement | swarm/src/swarm.cpp:51-57 | a spawn point lies on the top gutter (`y == -k_bee_radius`) or the left gutter (`x == -k_bee_radius`), and inside the asserted bounds for a draw below the maximum |
| SwarmSim.RandMaxSpawnFailsAssertion | swarm/src/swarm.cpp:51-59 | with a draw equal to `RAND_MAX` the spawn point has `y == height + radius`, which the assertion on line 59 rejects |
| SwarmSim.Travel | swarm/src/swarm.cpp:132-133 | one tick moves a coordinate by at most `speed * k_dt` |
| SwarmSim.Advance | swarm/src/swarm.cpp:131-147 | after moving, `x` and `y` lie in their wrapped ranges and `facing` in `[0, k_tau)`; the state fields are untouched |
| SwarmSim.Step | swarm/src/swarm.cpp:77-148 | one tick keeps the bee's invariant (position in range, facing in `[0, k_tau)`, sprite offsets on frames) and applies `Transition` with the edge test at the old position |
| SwarmSim.IdleBeeOnEdgeStaysPut | swarm/src/swarm.cpp:99-102 | an idle bee on an edge pixel with a running timer keeps its position and facing; only the timer drops |
| SwarmSim.Bee.constructor | swarm/src/swarm.cpp:49-75 | idle, timer, speed and rotation 0, placed by `EdgePlacement` on the top or left gutter, facing in `[0, k_tau]`, sprite offsets on random frames |
| SwarmSim.Bee.ApplyTransition | swarm/src/swarm.cpp:79-129 | the state, timer, speed and rotation become `Transition` of the old ones; position, facing and sprites are unchanged |
| SwarmSim.Bee.MoveAndAnimate | swarm/src/swarm.cpp:131-147 | the new snapshot is `Advance` of the old one |
| SwarmSim.Bee.Update | swarm/src/swarm.cpp:77-148 | the new snapshot is `Step` of the old one and the bee's invariant is kept |
| SwarmSim.Swarm.constructor | swarm/src/swarm.cpp:150-153 | a fresh array of `n` distinct fresh bees, each satisfying its invariant; bee `i` is idle at rest at the edge point of `spawns[i]`'s first draw, faces the angle of its second, and takes its sprite offsets from the last three (`Spawned`) |
| SwarmSim.Swarm.Update | swarm/src/swarm.cpp:160-166 | every bee takes exactly one `Step` with its own draws, in array order |
| Attractors.Rads2Dir | oldsrc/BeeHandle.cpp:15-33 | the direction code is in 0..7, and 0 exactly for angles in `[3π/8, 5π/8)` |
| Attractors.Rads2DirIsCompass | oldsrc/BeeHandle.cpp:15-33 | on the range of `atan2` the code counts octants clockwise from the upward direction |
| Attractors.ShareStartClosed | oldsrc/BeeHandle.cpp:207-235 | the start index of thread `i` is `i * (n / threads) + min(i, n % threads)`, as the source's two branches compute it; this row covers `ShareStart` |
| Attractors.ThreadRange | oldsrc/BeeHandle.cpp:207-235 | the `[start, end)` the source computes for thread `i`, or none for a thread that gets no index when `n < numThreads` |
| Attractors.SharesEnds | oldsrc/BeeHandle.cpp:207-235 | the first range starts at 0 and the last ends at `n` |
| Attractors.SharesTile | oldsrc/BeeHandle.cpp:207-235 | the ranges start at 0, end at `n`, and are contiguous and ordered |
| Attractors.SharesMonotone | oldsrc/BeeHandle.cpp:333-364 | a later thread never starts before an earlier one |
| Attractors.EachIndexSomeThread | oldsrc/BeeHandle.cpp:207-235 | every index in `[0, n)` lies in some thread's range, also when `n < numThreads` |
| Attractors.SharesDisjoint | oldsrc/BeeHandle.cpp:333-364 | no index lies in the ranges of two different threads |
| Attractors.DedupLast | oldsrc/BeeHandle.cpp:297-315 | the deduplicated frame has no repeated cell, the same cells as the input, and is no longer |
| Attractors.Count | oldsrc/BeeHandle.cpp:313 | the number of stored frames containing a cell is at most the number of frames |
| Attractors.CountPush | oldsrc/BeeHandle.cpp:313-318 | pushing a frame adds one to the count of exactly the cells in it |
| Attractors.CountDropFirst | oldsrc/BeeHandle.cpp:331-372 | erasing the oldest frame takes one from the count of exactly the cells in it |
| Attractors.Claims | oldsrc/BeeHandle.cpp:39-52 | running the claim loop over a range keeps the grid's shape |
| Attractors.ClaimStep | oldsrc/BeeHandle.cpp:39-50 | one iteration of the claim loop keeps the grid's shape; what it does to the cell is stated by `ClaimsFirstArrival` |
| Attractors.ClaimsFirstArrival | oldsrc/BeeHandle.cpp:39-50 | a free cell scored above the threshold goes to the first point of the range standing on it; a claimed cell keeps its claimant; a cell at or below the threshold stays as it was |
| Attractors.ClaimsSplit | oldsrc/BeeHandle.cpp:207-239 | running the claim loop over two adjacent ranges is running it over their union, so the thread ranges in order equal one pass |
| Attractors.Ceil | oldsrc/BeeHandle.cpp:91 | the least integer at or above a real threshold |
| Attractors.ThresholdIsProduct | oldsrc/BeeHandle.cpp:91 | the release threshold is `avgPercent * attractorHistory.size()` |
| Attractors.BelowCeil | oldsrc/BeeHandle.cpp:91 | an integer score is below the real threshold exactly when it is below its ceiling |
| Attractors.Release | oldsrc/BeeHandle.cpp:89-96 | running the release loop over a range keeps the grid's shape |
| Attractors.ReleaseStep | oldsrc/BeeHandle.cpp:89-96 | one iteration of the release loop keeps the grid's shape; what it does to the cell is stated by `ReleaseEffect` |
| Attractors.ReleaseEffect | oldsrc/BeeHandle.cpp:89-96 | for a frame without repeated cells, each cell of the range loses exactly one point of score and is freed exactly when its new score is below the threshold; other cells are untouched |
| Attractors.ReleaseSplit | oldsrc/BeeHandle.cpp:331-372 | releasing two adjacent ranges is releasing their union |
| Attractors.PushKeepsScored | oldsrc/BeeHandle.cpp:297-318 | adding one to every cell of the deduplicated frame and queueing it keeps "score = number of stored frames containing the cell" |
| Attractors.ClaimsKeepScored | oldsrc/BeeHandle.cpp:39-52 | claiming changes only claimants, so the score invariant is kept |
| Attractors.EvictKeepsScored | oldsrc/BeeHandle.cpp:331-372 | releasing the oldest frame and erasing it keeps the score invariant, and frees exactly the cells of that frame whose new score is below the threshold |
| Attractors.CountFrame | oldsrc/BeeHandle.cpp:297-315 | the backward scan returns `DedupLast` of the new frame and raises the score of each distinct cell by exactly one, leaving the others |
| Attractors.StepLength | oldsrc/BeeHandle.cpp:151-160 | `int(trig * stepSize)` is never longer than the step |
| Attractors.Reflect | oldsrc/BeeHandle.cpp:160-180 | an axis moves by `+delta`, or by `-delta` when `+delta` would leave `[0, extent)`; for a step at most half the grid the result stays inside |
| Attractors.MoveOne | oldsrc/BeeHandle.cpp:151-185 | a point with a zero draw stays with its direction; otherwise it moves by at most the step on each axis, stays on the grid for a step at most half the grid, and gets a direction code in 0..7 |
| Attractors.PadZeros | oldsrc/BeeHandle.cpp:122-132 | the `push_back(0)` loops extend a list with zeros to the requested length and keep its prefix |
| Attractors.LandedStep | oldsrc/BeeHandle.cpp:134-149 | a claimant's `landed` becomes 1 exactly when `sudo_landed` was 0, and `sudo_landed` becomes non-zero; a non-claimant resets both to 0 |
| Attractors.LandedOnce | oldsrc/BeeHandle.cpp:134-149 | a point that stays a claimant reports `landed == 1` on its first update only, then `(0, 2)`; this row covers `LandedAfter`, the `landed` flags after `k` updates |
| Attractors.MoveAll | oldsrc/BeeHandle.cpp:121-188 | `movePoints` keeps the list lengths, keeps every claimant in place, keeps the moved points on the grid for a step at most half the grid, and keeps the landing pairs consistent |
| Attractors.Statics.constructor | oldsrc/BeeHandle.cpp:35-37 | the file-scope grid, history and static points start empty |
| Attractors.Statics.UpdateAttractorMatrix | oldsrc/BeeHandle.cpp:39-52 | the grid becomes `Claims` over `[start, end)` with the integer threshold `avgPercent * history size`; history and static points are untouched |
| Attractors.Statics.RemoveLastFrame | oldsrc/BeeHandle.cpp:89-96 | the grid becomes `Release` of the oldest frame over `[start, end)`; history and static points are untouched |
| Attractors.Statics.ClaimInRanges | oldsrc/BeeHandle.cpp:207-239 | the thread ranges run in order amount to one `Claims` pass over all static points |
| Attractors.Statics.ReleaseInRanges | oldsrc/BeeHandle.cpp:331-368 | the thread ranges run in order amount to one `Release` pass over the whole oldest frame |
| Attractors.BeeHandle.constructor | oldsrc/BeeHandle.cpp:98-119 | a grid of free, zero-score cells that know their position, empty history, points and lists, and the stored parameters; the invariant holds |
| Attractors.BeeHandle.GetDirs | oldsrc/BeeHandle.cpp:287-289 | returns the direction list |
| Attractors.BeeHandle.GetLanded | oldsrc/BeeHandle.cpp:291-293 | returns the landing list |
| Attractors.BeeHandle.UpdatePoints | oldsrc/BeeHandle.cpp:190-285 | the points become the static points, the grid becomes one `Claims` pass with the truncated integer `avgPercent`, the points then move by `MoveAll`; the invariant holds |
| Attractors.BeeHandle.AddAttractorsAvg | oldsrc/BeeHandle.cpp:295-373 | the history becomes the old history plus `DedupLast` of the new frame, minus its oldest frame when longer than `storedFrames`; a cell is freed exactly when it is in the evicted frame and its new score is below the threshold; the invariant (score = frames containing the cell, history at most `storedFrames`) holds |
| Attractors.BeeHandle.PushFrame | oldsrc/BeeHandle.cpp:297-318 | the deduplicated frame is queued and every distinct cell of it gains one point of score |
| Attractors.BeeHandle.EvictOldest | oldsrc/BeeHandle.cpp:331-372 | the oldest frame is erased and its cells are released as `FreedOldest` describes; the score invariant holds |
| Attractors.BeeHandle.MovePoints | oldsrc/BeeHandle.cpp:121-188 | the new points, directions and landing lists are `MoveAll` of the old ones; the invariant holds |
| Attractors.BeeHandle.MoveEach | oldsrc/BeeHandle.cpp:133-187 | every point takes its own move or stays as claimant; tracked landing pairs follow `LandedStep` |
| Attractors.BeeHandle.GrowLists | oldsrc/BeeHandle.cpp:122-132 | `dirs` grows with zeros to the point count, `landed` and `sudo_landed` to the tracked count |
| Attractors.BeeHandle.UpdatePoint | oldsrc/BeeHandle.cpp:134-185 | one loop pass: point `p` moves by `MoveOne` unless it is its cell's claimant, and its landing pair follows `LandedStep` when tracked |
| SwarmStrategy.ChooseCoordinate | oldsrc/SwarmStrategy.h:24-29 | a requested coordinate other than -1 is kept; -1 becomes `rand() % extent`, which lies in `[0, extent)` |
| SwarmStrategy.Strategy.constructor | oldsrc/SwarmStrategy.h:7-11 | empty point and attractor lists and the given grid size and step |
| SwarmStrategy.Strategy.GetPoints | oldsrc/SwarmStrategy.h:14-16 | returns the point list unchanged |
| SwarmStrategy.Strategy.AddPoint | oldsrc/SwarmStrategy.h:17-19 | appends exactly the point at the end; attractors are untouched |
| SwarmStrategy.Strategy.AddAttractor | oldsrc/SwarmStrategy.h:20-22 | appends exactly the attractor at the end; points are untouched |
| SwarmStrategy.Strategy.AddPointAt | oldsrc/SwarmStrategy.h:23-35 | appends `(x, y)` with each -1 replaced by a random in-grid coordinate |
| SwarmStrategy.Strategy.AddAttractorAt | oldsrc/SwarmStrategy.h:36-48 | appends `(x, y)` to the attractors with each -1 replaced by a random in-grid coordinate |
| SwarmStrategy.Strategy.ReplaceAttractors | oldsrc/SwarmStrategy.h:49-51 | the attractor list becomes the argument; points are untouched |
| BeeHandleSimple.XYToDir | oldsrc/BeeHandleSimple.hpp:42-77 | a non-zero step gets a compass number in 0..7; `(0, 0)` gets `rand() % 3 - 1` in `{-1, 0, 1}` |
| BeeHandleSimple.DirStep | oldsrc/BeeHandleSimple.hpp:42-77 | each compass number 0..7 names a non-zero step of at most one cell per axis |
| BeeHandleSimple.XYToDirInvertsDirStep | oldsrc/BeeHandleSimple.hpp:42-77 | `x_y_to_dir` of a compass step gives back its number |
| BeeHandleSimple.DirStepInvertsXYToDir | oldsrc/BeeHandleSimple.hpp:42-77 | the compass step of `x_y_to_dir(x, y)` is `(x, y)` for every non-zero step |
| BeeHandleSimple.Candidate | oldsrc/BeeHandleSimple.hpp:88-94 | the candidate coordinate always lies in `[0, max)`; it is `old + move * dist` when that is in range and its C remainder when non-negative |
| BeeHandleSimple.MovedPos | oldsrc/BeeHandleSimple.hpp:96-101 | an accepted move (strictly higher potential at the candidate) lands inside the grid; a rejected one leaves the position unchanged |
| BeeHandleSimple.Remember | oldsrc/BeeHandleSimple.hpp:103-108 | dropping the last direction and inserting the new one at the front keeps the length, puts the new direction first and shifts the rest by one |
| BeeHandleSimple.MovedDirs | oldsrc/BeeHandleSimple.hpp:100-108 | the direction memory keeps its length after a move attempt |
| BeeHandleSimple.LandedCount | oldsrc/BeeHandleSimple.hpp:110-124 | the counter increments when the position the bee ends on landed, and resets to 0 otherwise |
| BeeHandleSimple.MovedRange | oldsrc/BeeHandleSimple.hpp:83-127 | moving a range of bees keeps the list length |
| BeeHandleSimple.MovedDirsRange | oldsrc/BeeHandleSimple.hpp:83-127 | updating the memories of a range keeps the list length |
| BeeHandleSimple.MovedRangeEffect | oldsrc/BeeHandleSimple.hpp:83-127 | each bee of the range makes exactly its own move attempt; bees outside the range are untouched |
| BeeHandleSimple.MovedRangeSplit | oldsrc/BeeHandleSimple.hpp:83-127 | moving two adjacent ranges in order is moving their union |
| BeeHandleSimple.LandedRange | oldsrc/BeeHandleSimple.hpp:110-124 | updating the landing counters of a range keeps the list length |
| BeeHandleSimple.LandedRangeNonNegative | oldsrc/BeeHandleSimple.hpp:110-124 | landing counters are never negative |
| BeeHandleSimple.LandedRangeSplit | oldsrc/BeeHandleSimple.hpp:110-124 | updating the counters of two adjacent ranges is updating their union |
| BeeHandleSimple.Zeros | oldsrc/BeeHandleSimple.hpp:159-160 | `resize` then `fill(0)` gives exactly `k` zeros |
| BeeHandleSimple.LandedSlots | oldsrc/BeeHandleSimple.hpp:159 | the corrected size of `landed`: one slot per multiple of `sound_divisor` below `n` |
| BeeHandleSimple.LandedSlotsCover | oldsrc/BeeHandleSimple.hpp:110-124 | with `LandedSlots(n, sd)` slots every tracked bee below `n` has its slot |
| BeeHandleSimple.LandedSizeAsWrittenTooSmall | oldsrc/BeeHandleSimple.hpp:159 | with 16 bees and `sound_divisor` 3 the size `n / sd` = 5 leaves bee 15, which the threads move, without a slot |
| BeeHandleSimple.ShareStart | oldsrc/BeeHandleSimple.hpp:80-83 | thread `t` starts at `(n / NUM_THREADS) * t`; all shares lie below `NUM_THREADS * (n / NUM_THREADS)` |
| BeeHandleSimple.TailNeverMoves | oldsrc/BeeHandleSimple.hpp:80-83 | the eight shares end at `n - n % NUM_THREADS`, and the bees after that are never moved |
| BeeHandleSimple.SpawnedBees | oldsrc/BeeHandleSimple.hpp:162-164 | one position per new bee |
| BeeHandleSimple.SpawnedDirs | oldsrc/BeeHandleSimple.hpp:166-167 | one current direction per new bee |
| BeeHandleSimple.DirsFrom | oldsrc/BeeHandleSimple.hpp:169-173 | every remembered direction is `rand() % 8`, a compass number in 0..7 |
| BeeHandleSimple.SpawnedPast | oldsrc/BeeHandleSimple.hpp:169-174 | one direction memory per new bee |
| BeeHandleSimple.SpawnedWellFormed | oldsrc/BeeHandleSimple.hpp:162-174 | every new bee is in `[0, max_x) × [0, max_y)`, has a direction in 0..7 and `DIR_MEMORY` remembered directions in 0..7 |
| BeeHandleSimple.RandomDirs | oldsrc/BeeHandleSimple.hpp:169-173 | the inner loop builds exactly `DirsFrom` of its draws |
| BeeHandleSimple.Averages | oldsrc/BeeHandleSimple.hpp:191-200 | one average per bee; for memories of compass numbers and -1 each average lies in `[-1, 7]` |
| BeeHandleSimple.SumFirst | oldsrc/BeeHandleSimple.hpp:193-196 | the inner loop sums the first `n` entries |
| BeeHandleSimple.SumBetween | oldsrc/BeeHandleSimple.hpp:193-196 | a sum of values in `[lo, hi]` lies between `lo * |s|` and `hi * |s|` |
| BeeHandleSimple.AverageBetween | oldsrc/BeeHandleSimple.hpp:197 | the C integer average of `DIR_MEMORY` values in `[lo, hi]` lies in `[lo, hi]` |
| BeeHandleSimple.BeeHandle.constructor | oldsrc/BeeHandleSimple.hpp:136-140 | the given grid size and sound divisor, and empty lists |
| BeeHandleSimple.BeeHandle.MoveBee | oldsrc/BeeHandleSimple.hpp:79-128 | the bees of thread `t`'s share make their move attempts in order (`MovedRange`, `MovedDirsRange`, `LandedRange`); no other bee changes |
| BeeHandleSimple.BeeHandle.MoveOne | oldsrc/BeeHandleSimple.hpp:84-125 | one loop pass: bee `i`'s position, memory and (if tracked) landing counter are updated by `MovedPos`, `MovedDirs` and `LandedCount` |
| BeeHandleSimple.BeeHandle.UpdateMovement | oldsrc/BeeHandleSimple.hpp:250-254 | stores the step length and runs the eight shares in order: the first `n - n % NUM_THREADS` bees move, the rest do not |
| BeeHandleSimple.BeeHandle.RunShare | oldsrc/BeeHandleSimple.hpp:250-254 | after thread `t` the lists are as if the bees of threads `0..t` had moved in order |
| BeeHandleSimple.BeeHandle.AddBees | oldsrc/BeeHandleSimple.hpp:158-176 | `landed` becomes zeros of the corrected size `LandedSlots` (one slot per tracked bee, see the findings), and the spawned bees, directions and memories are appended |
| BeeHandleSimple.BeeHandle.AddOne | oldsrc/BeeHandleSimple.hpp:162-174 | one loop pass appends a bee at `(rand() % max_x, rand() % max_y)`, a direction `rand() % 8` and its memory |
| BeeHandleSimple.BeeHandle.GetDirs | oldsrc/BeeHandleSimple.hpp:191-200 | `dirs` becomes `Averages(past_dirs)` and is returned; nothing else changes |
| BeeHandleSimple.BeeHandle.ClearBees | oldsrc/BeeHandleSimple.hpp:206-210 | bees, directions and memories are emptied; `landed` is left as it was |
| IntSwarm.VelocityDraw | swarm/src/Swarm.cpp:12-13 | `rand() % V - V / 2` lies in `[-V/2, V - 1 - V/2]` |
| IntSwarm.FrameIndex | swarm/src/Swarm.cpp:19 | `y * k_camera_width + x` of an in-frame pixel indexes the frame |
| IntSwarm.Spawned | swarm/src/Swarm.cpp:9-16 | the bee is in the frame and each velocity component is in `[-V/2, V - 1 - V/2]` |
| IntSwarm.Kicked | swarm/src/Swarm.cpp:19-30 | on an edge pixel the velocity becomes `(0, 0)`; it changes otherwise only on the 2% roll, by one velocity draw per axis |
| IntSwarm.Reflected | swarm/src/Swarm.cpp:32-38 | a component is negated exactly when the move would leave `[0, size)` |
| IntSwarm.ReflectedStaysInside | swarm/src/Swarm.cpp:32-41 | for a speed at most half the frame, the reflected move stays inside |
| IntSwarm.ReflectionCanLeaveFrame | swarm/src/Swarm.cpp:32-41 | a speed larger than the frame can carry a bee out even after reflection |
| IntSwarm.EdgeStops | swarm/src/Swarm.cpp:19-41 | a bee on an edge pixel stops where it is |
| IntSwarm.QuietStep | swarm/src/Swarm.cpp:23-41 | off the edges and without the kick, a bee keeps its speed on each axis and moves by it or bounces |
| IntSwarm.StepStaysInFrame | swarm/src/Swarm.cpp:32-41 | a step stays in the frame when the velocity it moves with is at most half the frame |
| IntSwarm.Bee.Init | swarm/src/Swarm.cpp:9-16 | the bee's state becomes `Spawned` and `pos` mirrors `(x, y)` |
| IntSwarm.Bee.Update | swarm/src/Swarm.cpp:18-45 | the bee's state becomes `Step` of the old one and `pos` mirrors `(x, y)`; `Step` is what this row, `EdgeStops`, `QuietStep` and `StepStaysInFrame` state about |
| IntSwarm.Swarm.Init | swarm/src/Swarm.cpp:51-59 | fresh bee and point arrays, bee `i` spawned from its draws and `points[i]` its position |
| IntSwarm.Swarm.Update | swarm/src/Swarm.cpp:61-66 | every bee takes one `Step` in array order and `points[i]` becomes bee `i`'s position |
| CameraField.Int8 | swarm/src/camera.cpp:232-233 | the `int8_t` conversion: a value in `[-128, 127]` congruent to the input modulo 256, equal to it when it fits |
| CameraField.Flat | swarm/src/camera.cpp:232-233 | `i * field_size + j` of a kernel entry indexes the kernel |
| CameraField.KernelCentreIsZero | swarm/src/camera.cpp:232-233 | the centre entry of the kernel is `(0, 0)` |
| CameraField.LastCover | swarm/src/camera.cpp:244-266 | the edge pixel scanned last in row-major order whose window covers a cell |
| CameraField.LastCoverIsLast | swarm/src/camera.cpp:244-266 | no covering edge pixel is scanned after the one `LastCover` returns |
| CameraField.StampPointsToEdge | swarm/src/camera.cpp:232-261 | the kernel entry used for a cell holds (edge column - cell column, edge row - cell row) |
| CameraField.StampedWithKernel | swarm/src/camera.cpp:254-261 | after `init_field`, a cell stamped from edge pixel `(a, b)` holds the vector to it; this row covers `Stamped`, the cells `init_field` writes |
| CameraField.FlatInjective | swarm/src/camera.cpp:232-233 | distinct kernel entries have distinct positions |
| CameraField.VectorField.constructor | swarm/src/camera.cpp:36-37 | the two kernel arrays start empty |
| CameraField.VectorField.InitField | swarm/src/camera.cpp:223-236 | two fresh `fs * fs` arrays with entry `(i, j)` equal to `((fs-1)/2 - j, (fs-1)/2 - i)` |
| CameraField.VectorField.GetVectorFrame | swarm/src/camera.cpp:238-268 | each cell of the output frames holds the kernel entry from the last covering edge pixel in scan order, and is unchanged when no edge pixel covers it; writes only inside the frame |
| CameraField.VectorField.ScanRow | swarm/src/camera.cpp:246-265 | one row of the scan extends `LastCover` by the edge pixels of that row |
| CameraField.VectorField.StampWindow | swarm/src/camera.cpp:250-264 | stamps the kernel around one pixel, clipped to the frame |
| CameraField.VectorField.StampWindowRow | swarm/src/camera.cpp:252-263 | stamps one kernel row around one pixel, clipped to the frame |
| CameraField.IdleTick | swarm/src/camera.cpp:340-369 | away from 0 the distance counter only counts down and nothing else changes; at 0 it reloads to `k_fps/idle_checks_per_sec - 1`, records the distance and folds it into the running average with weight `alpha`; `idle` is cleared when the distance exceeds twice the new average, and is newly set only when the idle counter is at most 0 and both the new average and the distance are below 1.1 times the previous average |
| CameraField.CounterBeforeClosed | swarm/src/camera.cpp:340-369 | closed form of the distance counter after `k` calls; this row and `IdleTick` cover `NextCounter`, the counter after one call |
| CameraField.ChecksPeriodically | swarm/src/camera.cpp:340-369 | a distance is measured on exactly every `k_fps/idle_checks_per_sec`-th call, from the first time the counter reaches 0 |
| CameraField.IdleMonitor.constructor | swarm/src/camera.cpp:39-42 | the static initialisers of the two counters and the averages |
| CameraField.IdleMonitor.IdleCheck | swarm/src/camera.cpp:340-369 | the statics and `*idle` become `IdleTick` of the old ones |
| AudioMix.TablesShorterThanStates | swarm/src/audio.cpp:8-19 | `channel_control` and `wavfile_names` have three entries while `k_state_count` is 4 |
| AudioMix.MixVolume | swarm/src/audio.cpp:77-80 | `128 * (0.9 - f)^2` truncated lies in `[0, 103]` for an idle share in `[0, 1]` |
| AudioMix.Slew | swarm/src/audio.cpp:82-93 | the new volume is within `b_max_change` of the previous one, equals the target when that is close enough, and lies between the previous volume and the target |
| AudioMix.RenderVolumes | swarm/src/audio.cpp:75-93 | one volume per state, each within `b_max_change` of its previous value |
| AudioMix.UnclampedVolumes | swarm/src/audio.cpp:79-81 | without clamping, channel `i` gets `channel_control[i] * mix_volume * (1 - f_i)`, with `mix_volume` computed from the idle share at channel 0 |
| AudioMix.SlewConverges | swarm/src/audio.cpp:82-93 | each call brings the volume `b_max_change` closer to a steady target, or onto it |
| AudioMix.Mixer.constructor | swarm/src/audio.cpp:72-73 | the static volume arrays start at zero |
| AudioMix.Mixer.Render | swarm/src/audio.cpp:69-105 | `new_volume` becomes `RenderVolumes` of the previous volumes and `prev_volume == new_volume` afterwards |
| AudioMix.Mixer.SyncPrevious | swarm/src/audio.cpp:100-103 | the copy loop makes `prev_volume` equal to `new_volume` |
| AudioMix.Loaded | swarm/src/audio.cpp:54-61 | the non-null chunks of the table, in order |
| AudioMix.LoadedMembers | swarm/src/audio.cpp:54-61 | a chunk is freed exactly when the table holds it |
| AudioMix.Dispose | swarm/src/audio.cpp:52-61 | every entry becomes null and the freed chunks are the non-null ones, in index order |
| AudioMix.LoadedAppend | swarm/src/audio.cpp:54-61 | one more table entry frees one more chunk exactly when it is non-null |
| MainLoop.FilteredSpec | oldsrc/main.cpp:40-49 | a filtered cell is never 255, a non-zero one is at most the threshold, a cell that was neither is unchanged, a changed cell became 0, and filtering twice is filtering once; this row covers `Filtered`, the per-cell rule of `filterImage` |
| MainLoop.DepthThreshold | oldsrc/main.cpp:414 | `depth_threshold * 255 / 10000` truncated lies in `[0, 255]` for a depth up to 10000 mm |
| MainLoop.DefaultDepthThreshold | oldsrc/main.cpp:414 | the default 1500 mm gives the threshold 38 |
| MainLoop.Filter | oldsrc/main.cpp:40-49 | every cell of the matrix becomes its filtered value |
| MainLoop.CPrefix | oldsrc/main.cpp:55 | `c_str()` sees the prefix before the first NUL |
| MainLoop.SkipSpaces | oldsrc/main.cpp:57 | `strtol` skips exactly the leading white space |
| MainLoop.DigitsEnd | oldsrc/main.cpp:57 | the end of a run of digits |
| MainLoop.StrtolEnd | oldsrc/main.cpp:57-61 | the position where `strtol` stops lies within the string |
| MainLoop.IsIntegerIff | oldsrc/main.cpp:54-62 | `isInteger(s)` holds exactly when the C string of `s` matches `[+-]?[0-9]+`; this row covers `IsInteger` |
| MainLoop.IsIntegerAccepts | oldsrc/main.cpp:54-62 | `"42"`, `"-7"` and `"12\0x"` are integers |
| MainLoop.IsIntegerRejects | oldsrc/main.cpp:54-62 | `""`, `"-"`, `"4a"` and `" 4"` are not |
| MainLoop.DropContours | oldsrc/main.cpp:68-80 | the result is, contour by contour, the points at positions divisible by `prop` |
| MainLoop.EveryNthLength | oldsrc/main.cpp:71-76 | `ceil(n / prop)` points of a contour are kept; this row and `EveryNthElements` cover `EveryNth`, the points kept from one contour |
| MainLoop.EveryNthElements | oldsrc/main.cpp:71-76 | kept point `k` is the contour's point `k * prop` |
| MainLoop.DropOneIsFlatten | oldsrc/main.cpp:68-80 | with `prop == 1` the result is the plain concatenation; this row and `FlattenSnoc` cover `Dropped` and `Flatten`, the specification of `DropContours` |
| MainLoop.Copies | oldsrc/main.cpp:438-445 | every copy of a point lies in the down-sampled grid within one pixel of its source |
| MainLoop.AppendedNearSources | oldsrc/main.cpp:434-447 | every appended point lies in the grid within one pixel of some source point |
| MainLoop.DuplicateEdges | oldsrc/main.cpp:434-447 | the list becomes the source points followed by their copies |
| MainLoop.PopAppended | oldsrc/main.cpp:516-519 | the `pop_back` loop leaves exactly the first `old_size` points |
| MainLoop.SkipStep | oldsrc/main.cpp:453-460 | a frame is skipped exactly when it has fewer than 100 points and fewer than 5 were skipped; the count resets on a full frame and stops at 5 |
| MainLoop.DroppedCountsRun | oldsrc/main.cpp:453-460 | `num_dropped` is the length of the current run of short frames, capped at 5 |
| MainLoop.DetectStep | oldsrc/main.cpp:400-404 | an expected gesture sets `was_expected` and `count_frames = 30`; otherwise nothing changes |
| MainLoop.GateStep | oldsrc/main.cpp:496-512 | `addAttractorsAvg` runs unless a pause is on or the countdown is ending this frame |
| MainLoop.GateRunSplit | oldsrc/main.cpp:496-512 | `m + n` frames are `m` frames followed by `n` frames |
| MainLoop.CountdownAdds | oldsrc/main.cpp:496-499 | while counting down, attractor updates go on and the count drops by one per frame |
| MainLoop.PauseSuppresses | oldsrc/main.cpp:504-508 | while paused, attractor updates are suppressed and `frame_counter` drops by one per frame |
| MainLoop.DetectionPause | oldsrc/main.cpp:400-512 | after a detection, 29 frames update the attractors, the next 50 do not, and the counters return to their initial values |
| MainLoop.LoopCounters.constructor | oldsrc/main.cpp:117-118 | the counters' initial values |
| MainLoop.LoopCounters.Detected | oldsrc/main.cpp:400-404 | the counters become `DetectStep` of the old ones |
| MainLoop.LoopCounters.SkipFrame | oldsrc/main.cpp:453-460 | `num_dropped` and the skip decision follow `SkipStep`; the other counters are untouched |
| MainLoop.LoopCounters.Gate | oldsrc/main.cpp:496-512 | the counters and the decision follow `GateStep` |
| DetectUtils.RectOf | oldsrc/utils.cpp:508-509 | the `Rect2f` of a box row has non-negative size and spans the box's corners |
| DetectUtils.DiagonalBoxesOverlapAsWritten | oldsrc/utils.cpp:474-485 | as written, two disjoint unit boxes touching only diagonally get IOU 1; this row also covers `IouAsWritten` and `IntersectionAsWritten`, the as-written measure it evaluates |
| DetectUtils.AsWrittenAgreesOnOverlap | oldsrc/utils.cpp:474-485 | for boxes that really overlap, the as-written intersection equals the clamped one and is positive, both IOUs are equal, and so are their threshold tests (`ExceedsAsWritten`, the `IOU(box1, box2) > thresholdIOU` of line 517, included) |
| DetectUtils.Overlap | oldsrc/utils.cpp:476-481 | the overlap of one axis is non-negative, zero when the intervals are apart |
| DetectUtils.Iou | oldsrc/utils.cpp:474-485 | the corrected measure lies in `[0, 1]` and is 0 (or undefined for empty boxes) for disjoint boxes |
| DetectUtils.RatioInUnit | oldsrc/utils.cpp:484 | a part over a whole that contains it lies in `[0, 1]` |
| DetectUtils.IntersectionBounds | oldsrc/utils.cpp:476-482 | the shared area is non-negative, at most either area, and zero for disjoint boxes |
| DetectUtils.IouSymmetric | oldsrc/utils.cpp:474-485 | the measure does not depend on the order of the boxes |
| DetectUtils.KeptUpTo | oldsrc/utils.cpp:524-527 | every returned index is below the box count |
| DetectUtils.AnyHitWitness | oldsrc/utils.cpp:500-521 | a box is marked bad by overlap exactly when an earlier retained box overlaps it above the threshold |
| DetectUtils.KeptProperties | oldsrc/utils.cpp:494-529 | under either measure (the source's `IOU` as written, or the clamped one): every retained box meets the score threshold, no earlier retained box exceeds the IOU threshold against a later one, and a box meeting the score threshold is dropped only for an earlier retained box exceeding it |
| DetectUtils.KeptUpToSorted | oldsrc/utils.cpp:524-527 | the returned indices are strictly increasing and are exactly the retained boxes |
| DetectUtils.Sweep | oldsrc/utils.cpp:510-519 | the inner loop marks bad exactly the bad indices already known plus the later boxes that retained box `i` hits: below the score threshold, or over the IOU threshold by the detections' measure (the source's `IOU` as written, with +inf for a positive overlap over a zero union) |
| DetectUtils.FilterBoxes | oldsrc/utils.cpp:490-530 | returns exactly the retained boxes in index order, with the overlap test of the detections' measure; with measure `AsWritten` this is the source's `filterBoxes` |
| DetectUtils.OuterStep | oldsrc/utils.cpp:500-521 | one pass of the outer loop keeps the bad set equal to the boxes dropped so far plus the later boxes some retained box has hit, under either measure |
| DetectUtils.AnyHitStep | oldsrc/utils.cpp:500-521 | looking at box `i` adds the boxes it hits, if it is retained |
| DetectUtils.TwoConfidentBoxes | oldsrc/utils.cpp:490-530 | of two boxes meeting the score threshold the first is returned, and the second exactly when the first does not hit it |
| DetectUtils.DiagonalPairFilteredAsWritten | oldsrc/utils.cpp:490-530 | as written, two confident unit boxes touching only diagonally at IOU threshold 0.5 give `[0]`: the first suppresses the second |
| DetectUtils.DiagonalPairFilteredClamped | oldsrc/utils.cpp:490-530 | with the clamped measure the same pair gives `[0, 1]` |
| DetectUtils.OrderedRect | oldsrc/utils.cpp:508-509 | a box row with ordered corners becomes the rectangle at `(xmin, ymin)` of size `xmax - xmin` by `ymax - ymin` |
| DetectUtils.DiagonalPairExceedsAsWritten | oldsrc/utils.cpp:517 | as written, the diagonal pair's IOU exceeds 0.5 |
| DetectUtils.DiagonalPairBelowClamped | oldsrc/utils.cpp:517 | with the clamped measure, the diagonal pair's IOU does not exceed 0.5 |
| DetectUtils.ReadLabelsFile | oldsrc/utils.cpp:59-77 | a missing file reports not found and changes nothing; otherwise the lines read come first, followed by empty strings up to a multiple of 16, and the count is the number of lines |
| DetectUtils.CloseFrom | oldsrc/utils.cpp:290 | the first `}` at or after a position, or none |
| DetectUtils.EntriesShape | oldsrc/utils.cpp:290-302 | every match of `item \{([\S\s]*?)\}` opens with `item {`, closes with `}` and holds no other `}`; this row covers `Entries`, the list of matches it describes |
| DetectUtils.FirstDigit | oldsrc/utils.cpp:291-307 | the first digit at or after a position |
| DetectUtils.DigitRunEnd | oldsrc/utils.cpp:291-307 | the end of a run of digits |
| DetectUtils.FirstNumber | oldsrc/utils.cpp:303-307 | an entry has an id exactly when it holds a digit |
| DetectUtils.LastQuote | oldsrc/utils.cpp:292-308 | the greedy `'.+'` match ends at the last quote on the line |
| DetectUtils.QuotedFrom | oldsrc/utils.cpp:292-308 | the leftmost, then longest, `'.+'` match, or none |
| DetectUtils.QuotedName | oldsrc/utils.cpp:308-312 | the name with its quotes stripped is non-empty and stays on one line |
| DetectUtils.Parsed | oldsrc/utils.cpp:300-313 | at most one `(id, name)` pair per entry |
| DetectUtils.Insert | oldsrc/utils.cpp:313 | `map::insert` adds the id with its name when it is new; every entry already present keeps its name |
| DetectUtils.InsertAllKeeps | oldsrc/utils.cpp:300-314 | inserting pairs adds exactly their ids and keeps every existing entry; this row, `FirstWinsAt` and `InsertAllFirstWins` cover `InsertAll`, the insertion loop of lines 300-314 |
| DetectUtils.FirstWinsAt | oldsrc/utils.cpp:313 | a new id takes the name of the first pair carrying it |
| DetectUtils.InsertAllFirstWins | oldsrc/utils.cpp:300-314 | inserting pairs adds their ids, keeps existing entries, and a repeated new id keeps its first name |
| DetectUtils.ParsedStep | oldsrc/utils.cpp:300-313 | one more entry inserts its pair when it has both an id and a name, and is skipped otherwise |
| DetectUtils.ReadLabelsMapFile | oldsrc/utils.cpp:276-316 | the corrected reader: a missing or unreadable file reports not found and leaves the map; otherwise the parsed pairs are inserted |
| DetectUtils.OpenStatusAsWritten | oldsrc/utils.cpp:279-284 | as written, the status is not-found exactly for an unreadable stream; a readable file passes with its contents |
| DetectUtils.MissingMapFileReportsOk | oldsrc/utils.cpp:279-284 | as written, a missing map file reports success with no entries |
| DetectUtils.CheckTopLabel | oldsrc/utils.cpp:251-271 | `is_expected` is true exactly when the top score is at least 0.7 and the top index equals `expected`; the status is OK exactly when the top labels were available |
| DetectUtils.DetectList | oldsrc/utils.cpp:452-470 | with no boxes `is_expected` is false; otherwise the last box decides: its score is at least 0.8 and its top label is the expected one |
| Graphics.RemoveScan | oldsrc/graphics/graphics_module.cpp:570-575 | removing never makes the list longer |
| Graphics.EraseMatches | oldsrc/graphics/graphics_module.cpp:568-577 | the erase loop computes `RemoveScan`, and reports a find exactly when some entry matched |
| Graphics.RemoveScanSpec | oldsrc/graphics/graphics_module.cpp:567-578 | entries with a different text are kept in order; with no match the list is unchanged; with a match it gets shorter |
| Graphics.AdjacentMatchSurvives | oldsrc/graphics/graphics_module.cpp:570-575 | of two adjacent matches only the first is removed, because the index is not stepped back |
| Graphics.RemoveScanClears | oldsrc/graphics/graphics_module.cpp:570-575 | a list with no two adjacent matches loses all its matches |
| Graphics.DisplayStep | oldsrc/graphics/graphics_module.cpp:505-543 | a frame is written exactly when recording and the new count is even; the QR upload fires exactly when the count reaches `frame_total`, which stops recording and resets the count |
| Graphics.RecordRunWritesEven | oldsrc/graphics/graphics_module.cpp:517-528 | while recording, call `k` counts frame `c + k + 1` and writes it exactly when that is even |
| Graphics.RecordingStartsAndStops | oldsrc/graphics/graphics_module.cpp:507-534 | pressing R on an idle recorder starts at 0; reaching the total stops and resets; below it, nothing fires |
| Graphics.GraphicsModule.constructor | oldsrc/graphics/graphics_module.cpp:147-175 | the particle buffer, the world scale `20 / maxX`, the half extents, no texts, QR and recording off, count 0 of 250 |
| Graphics.GraphicsModule.WorldSpan | oldsrc/graphics/graphics_module.cpp:103-105 | screen x 0 maps to -10 and `maxX` to 10, monotonically; this row covers `WorldX` and `WorldY` (`to_opengl_world_x`, `to_opengl_world_y`, lines 103-110), the same map on each axis |
| Graphics.GraphicsModule.UpdateParticles | oldsrc/graphics/graphics_module.cpp:320-338 | returns -1 and changes nothing when any vector's size differs from `MaxParticles`; otherwise returns 0 and particle `i` takes the mapped `x[i]`, `y[i]`, `stage[i]` and `direction[i]` |
| Graphics.GraphicsModule.AddText | oldsrc/graphics/graphics_module.cpp:553-561 | appends exactly one entry with the mapped position; nothing else changes |
| Graphics.GraphicsModule.RemoveText | oldsrc/graphics/graphics_module.cpp:567-578 | `texts` becomes `RemoveScan` of the old list; the result is true exactly when some entry matched |
| Graphics.GraphicsModule.UpdateQr | oldsrc/graphics/graphics_module.cpp:653-669 | `qr_enabled` ends as `enabled` and the texture loaded; position and size change only when enabling from disabled with a loaded texture |
| Graphics.GraphicsModule.UpdateDisplay | oldsrc/graphics/graphics_module.cpp:352-547 | when not initialised, returns false and changes nothing; otherwise the recorder follows `DisplayStep` |
| Graphics.GraphicsModule.ShouldClose | oldsrc/graphics/graphics_module.cpp:708-713 | true when not initialised; otherwise true exactly on escape or a window close request |
| PySwarm.Moved | swarm.py:152-167 | after `c_entity.update` x is in `[-size, W + size]`, y in `[-size, H + size]` and the angle in `[0, 2π)`; velocities are unchanged; a position or angle already in range is just the moved one |
| PySwarm.RestingStaysPut | swarm.py:152-161 | an entity at rest inside the screen stays where it is |
| PySwarm.SpawnPoint | swarm.py:176-180 | a new bee starts on the top gutter (`y = -BEE_SIZE`) or the left gutter (`x = -BEE_SIZE`) |
| PySwarm.Spawned | swarm.py:175-183 | a new bee is on a gutter, at rest, not moving, timer 0, facing in `[0, 2π]` |
| PySwarm.Countdown | swarm.py:186-194 | when the timer runs out, `moving` toggles and the timer reloads from `BEE_MOVE_TIME` when starting and from `BEE_STOP_TIME` when stopping, with a turn rate in `[-BEE_TURN, BEE_TURN]`; stopping zeroes the velocity; otherwise only the timer drops |
| PySwarm.Steered | swarm.py:195-196 | while moving the velocity is reset to `BEE_SPEED` along the facing |
| PySwarm.StepProperties | swarm.py:185-197 | one tick flips the phase exactly when the timer runs out, keeps the bee on screen and a standing bee's velocity zero |
| PySwarm.StandingBeeStaysPut | swarm.py:185-197 | a standing bee whose timer has not run out keeps its place |
| PySwarm.PhaseHolds | swarm.py:186-188 | a timer holding at least `n` ticks keeps the phase for `n` ticks, dropping by `DT` per tick |
| PySwarm.ReloadHoldsSixTicks | swarm.py:186-189 | after the phase flips, the next six ticks do not flip it again |
| PySwarm.Bee.constructor | swarm.py:175-183 | the bee's state is `Spawned` of its draws |
| PySwarm.Bee.Move | swarm.py:152-167 | the body becomes `Moved` of the old one |
| PySwarm.Bee.Update | swarm.py:185-197 | the bee's state becomes `Step` of the old one; `Step` (the body of `c_bee.update`) is what this row and the `PySwarm` lemmas on the tick state about |
| PySwarm.PopulationStep | swarm.py:225-228 | one bee more when below the desired count, one fewer when above, none at it |
| PySwarm.PopulationConverges | swarm.py:223-228 | the count moves one bee per tick toward the desired count, reaches it and stays |
| PySwarm.PopulationRunLast | swarm.py:223-228 | one more tick applies one more population step |
| PySwarm.Swarm.constructor | swarm.py:207-209 | bee mode, 1000 desired bees, no bees |
| PySwarm.Swarm.Update | swarm.py:223-230 | outside bee mode nothing changes; otherwise the count follows `PopulationStep`, kept bees take one tick each and a new bee is `Spawned` and then ticked |
| PySwarm.Swarm.UpdateBees | swarm.py:229-230 | every bee takes exactly one tick, in list order |
| PyNectar.Accepted | swarm_nectar.py:269-277 | at most one nectar point per degree, each strictly more than two cells from every edge of the map |
| PyNectar.NineIncrements | swarm_nectar.py:278-281 | the nine increments hit each cell of the 3×3 block once and nothing else |
| PyNectar.PartialCount | swarm_nectar.py:278-281 | increment `j` lands on offset `(j / 3 - 1, j % 3 - 1)` |
| PyNectar.BandClosed | swarm_nectar.py:278-281 | the number of cells of a 3-wide band below `n` |
| PyNectar.GridSumSnoc | swarm_nectar.py:277-281 | one more nectar point adds its clipped 3×3 block to the map's sum |
| PyNectar.GridTotal | swarm_nectar.py:274-281 | every nectar point clear of the edges adds exactly nine to the map |
| PyNectar.NectarMapTotal | swarm_nectar.py:264-281 | after `circleNectar` the map sums to `9 × len(nectar)` and `len(nectar) <= 360` |
| PyNectar.ReachingNectar | swarm_nectar.py:204-208 | a running bee that reaches nectar starts feeding with zero velocity and stays put |
| PyNectar.Feeding | swarm_nectar.py:192-212 | while feeding, timer and position stay; feeding stops exactly when `near_nect` is false |
| PyNectar.ForagerStepSettles | swarm_nectar.py:192-212 | a step keeps the bee on screen and a feeding bee at rest |
| PyNectar.AwayFromNectar | swarm_nectar.py:192-212 | a bee that is not feeding and not next to nectar moves as in swarm.py |
| PyNectar.NectarBee.constructor | swarm_nectar.py:181-190 | a swarm.py bee on the square screen, not feeding |
| PyNectar.NectarBee.NearNect | swarm_nectar.py:214-226 | true exactly when the map cell under the clamped position is positive |
| PyNectar.NectarBee.Move | swarm_nectar.py:157-172 | the body becomes `Moved` on the square screen |
| PyNectar.NectarBee.Update | swarm_nectar.py:192-212 | the bee's state becomes `ForagerStep` with `near_nect` at its old position; `ForagerStep` is what this row, `AwayFromNectar`, `Feeding` and `ForagerStepSettles` state about |
| PyNectar.NectarSwarm.constructor | swarm_nectar.py:235-246 | bee mode, no bees, and the map and nectar list of `circleNectar` around the mouse |
| PyNectar.NectarSwarm.CircleNectar | swarm_nectar.py:264-281 | a fresh map and list: the list is `Accepted` for the 360 degrees and each map cell counts the nectar points next to it |
| PyNectar.NectarSwarm.AddNectar | swarm_nectar.py:275-281 | appends one point and adds one to each cell of its 3×3 block, keeping the map equal to the coverage count |
| PyNectar.NectarSwarm.Update | swarm_nectar.py:283-290 | as `c_swarm.update` of swarm.py; map and nectar list untouched |
| PyNectar.NectarSwarm.UpdateBees | swarm_nectar.py:289-290 | every bee takes exactly one step with its own `near_nect`, in list order |
| ProtoEntity.RAdd | protoswarm/entity.py:40-41 | `other + self` equals `self + other` componentwise |
| ProtoEntity.RSub | protoswarm/entity.py:46-47 | `other - self` componentwise |
| ProtoEntity.RMul | protoswarm/entity.py:52-53 | `k * self` equals `self * k` |
| ProtoEntity.AddThenSub | protoswarm/entity.py:37-44 | subtraction undoes addition, both ways; this row covers `Add` and `Sub` (`__add__`, `__sub__`), the component-wise operators it relates |
| ProtoEntity.MulThenDiv | protoswarm/entity.py:49-56 | division by a non-zero scalar undoes multiplication, both ways; this row covers `Mul` and `TrueDiv` (`__mul__`, `__truediv__`), the scalar operators it relates |
| ProtoEntity.MagnitudeSquared | protoswarm/entity.py:78-79 | the square of `magnitude()` is non-negative |
| ProtoEntity.MulMagnitude | protoswarm/entity.py:49-79 | scaling by `k` scales the squared magnitude by `k^2` |
| ProtoEntity.Normalized | protoswarm/entity.py:81-82 | `normalized()` has magnitude one and scales back to the vector |
| ProtoEntity.Pinned | protoswarm/entity.py:84-88 | a vector no longer than the limit is returned unchanged; the result is undefined exactly for a zero vector with a negative limit |
| ProtoEntity.PinnedLength | protoswarm/entity.py:84-86 | a vector longer than the limit is cut to exactly the limit's length |
| ProtoEntity.PinnedBounded | protoswarm/entity.py:84-88 | with a non-negative limit `pinned` succeeds and is no longer than the limit |
| ProtoEntity.RotatedMagnitude | protoswarm/entity.py:90-93 | a rotation keeps the magnitude; this row and `RotatedBack` cover `Rotated` (`rotate`) |
| ProtoEntity.RotatedBack | protoswarm/entity.py:90-93 | rotating by `a` and then by `-a` gives the vector back |
| ProtoEntity.Vector.constructor | protoswarm/entity.py:14-16 | a copy of `other` |
| ProtoEntity.Vector.Zero | protoswarm/entity.py:24-26 | the zero vector |
| ProtoEntity.Vector.Facing | protoswarm/entity.py:17-23 | the unit vector of the facing, scaled by the magnitude when one is given |
| ProtoEntity.Vector.IAdd | protoswarm/entity.py:58-61 | the vector becomes the old one plus `other` |
| ProtoEntity.Vector.ISub | protoswarm/entity.py:63-66 | the vector becomes the old one minus `other` |
| ProtoEntity.Vector.IMul | protoswarm/entity.py:68-71 | the vector becomes the old one times `k` |
| ProtoEntity.Vector.ITrueDiv | protoswarm/entity.py:73-76 | the vector becomes the old one divided by a non-zero `k` |
| ProtoEntity.Entity.constructor | protoswarm/entity.py:96-103 | a positive size (the assertion), fresh copies of both vectors and the given angles |
| ProtoEntity.Entity.Update | protoswarm/entity.py:105-119 | the body becomes `Moved` at 30 frames per second on the 1280×720 screen; the velocity object is kept |
| ProtoBees.Spawned | protoswarm/bees.py:22-29 | a new bee starts on a gutter, inside the wrapped range, at rest, timer 0 |
| ProtoBees.OffEdge | protoswarm/bees.py:33-42 | off the edge the bee heads along its facing at `BEE_SPEED`; an expired timer reloads in `BEE_CHANGE_TIME` with a turn rate in `BEE_TURN_RATE`, otherwise it drops by `DT` |
| ProtoBees.OnEdgeStops | protoswarm/bees.py:40-42 | on a lit pixel the velocity is zero, so the bee stays apart from wrapping; timer and turn rate are kept |
| ProtoBees.TimerStaysInRange | protoswarm/bees.py:33-38 | the timer stays in `(-DT, BEE_CHANGE_TIME[1]]` |
| ProtoBees.SpawnedTimerInRange | protoswarm/bees.py:29 | a new bee's timer is in that range |
| ProtoBees.PopulationRate | protoswarm/bees.py:50-55 | one call moves the count by at most `BEE_COUNT_RATE // FRAMES_PER_SECOND` bees and never past the desired count |
| ProtoBees.Bee.constructor | protoswarm/bees.py:22-29 | the bee's state is `Spawned` of its draws |
| ProtoBees.Bee.Move | protoswarm/entity.py:105-119 | the body becomes `Moved` on the prototype screen |
| ProtoBees.Bee.Update | protoswarm/bees.py:31-42 | the bee's state becomes `Step` with the clipped frame lookup at its old position; `Step` is what this row, `OffEdge`, `OnEdgeStops` and `TimerStaysInRange` state about |
| ProtoBees.Bees.constructor | protoswarm/bees.py:45-48 | 1200 desired bees, no bees, the nectar flag |
| ProtoBees.Bees.Populate | protoswarm/bees.py:51-55 | the count follows `BEE_COUNT_RATE // FRAMES_PER_SECOND` population steps; kept bees are unchanged and added bees are `Spawned` |
| ProtoBees.Bees.Update | protoswarm/bees.py:50-57 | the population steps, then every bee takes one step in list order |
| ProtoBees.Bees.UpdateBees | protoswarm/bees.py:56-57 | every bee takes exactly one step, in list order |
| ProtoLife.Roll | protoswarm/life.py:16-17 | `np.roll` along both axes keeps the shape and moves cell `(x - i, y - j)` (wrapped) to `(x, y)` |
| ProtoLife.ShiftSum | protoswarm/life.py:16-17 | a sum of shifted boards counts at most one per shift |
| ProtoLife.Neighbours | protoswarm/life.py:16-17 | the neighbour count lies in 0..8 |
| ProtoLife.Seeded | protoswarm/life.py:15 | a cell is alive after seeding exactly when it was alive or its frame pixel is positive |
| ProtoLife.Next | protoswarm/life.py:18 | a generation keeps the board shape |
| ProtoLife.LifeRule | protoswarm/life.py:18 | a dead cell is born exactly on three neighbours; a live cell survives exactly on two or three |
| ProtoLife.Empty | protoswarm/life.py:11-12 | the all-dead board of the given shape |
| ProtoLife.EmptyStaysEmpty | protoswarm/life.py:16-18 | nothing is born on an empty board |
| ProtoLife.NeighboursRoll | protoswarm/life.py:16-17 | the count on a rolled board is the count at the rolled-back position |
| ProtoLife.NextCommutesWithRoll | protoswarm/life.py:16-18 | a generation of a rolled board is the rolled generation: the torus has no preferred position |
| ProtoLife.Life.constructor | protoswarm/life.py:11-12 | an all-dead board of shape `(SIMULATION_BOUNDS[1], SIMULATION_BOUNDS[0])` |
| ProtoLife.Life.Update | protoswarm/life.py:14-18 | the board becomes `Next(Seeded(board, frame))` and keeps its shape |

## Left out

- Camera acquisition and edge extraction (libfreenect, Canny, blurring), `image_dist` and `cv::norm`: foreign calls. The edge frame is an input grid and the image distance an input number.
- TensorFlow and OpenCV DNN inference: `GetTopLabels` and the per-box classifier result are inputs of `CheckTopLabel` and `DetectList`.
- Rendering and windowing (OpenGL, GLFW, SDL, pygame drawing), the ffmpeg pipe and the QR upload command: the model keeps only the flags and counters they depend on. `loadPNG`'s result is a parameter of `UpdateQr`, and key and window state are parameters of `UpdateDisplay` and `ShouldClose`.
- SDL_mixer calls (`Mix_LoadWAV`, `Mix_Volume`, `Mix_PlayChannel`) and the `Mix_Quit` loop of `audio_dispose`: device I/O. `audio_initialize` is not part of this model.
- Program wiring, argument parsing, the event loops (`main` methods of the Python classes), frame pacing and the `swarm_clear` and `~swarm_t` deallocation: I/O and memory management with nothing to state.
- Thread creation and joining in `BeeHandle.cpp` and `BeeHandleSimple.hpp`: the thread ranges run one after another in thread order. The unsynchronised writes to one grid cell from two threads are a race that is not modelled.
- IEEE-754 rounding: floating-point values are reals. `sqrt`, `cos`, `sin` and `atan2` results are parameters, so `magnitude()` is passed as a value satisfying `m * m == x^2 + y^2` and `m >= 0`.
- `RandomFloat` in `BeeHandle.cpp` and every `rand()`/`random.uniform` call: their results are parameters within their documented ranges.
- `c_vector2d.__neg__` passes a scalar where a vector is expected, and the `facing=None` path uses an unimported module: both fail at run time in the source and are not modelled.
- The random angle of `c_nectar` in swarm_nectar.py: the nectar points are kept as positions only, since nothing reads their angle.
- The nectar map of swarm_nectar.py is a NumPy float array; the model counts in integers, which is exact for the small counts it holds.
- `BeeHandleSimple`: `get_potential`, `distance`, `add_bees(vector)`, `add_flowers`, `clear_flowers`, `get_bees` and `get_landed` are not modelled. The potential comparison and the landing flags that `get_potential` reports are inputs of each move.
- BeeHandleSimple.BeeHandle.MoveBee: requires every tracked bee of the share to have its `landed` slot. As written, `landed.at` throws `out_of_range` otherwise (see the findings); the exception is not modelled.
- BeeHandleSimple.BeeHandle.UpdateMovement: requires every tracked moving bee to have its `landed` slot, for the same reason.
- IntSwarm.Bee.Update: requires the bee inside the frame. The source reads `edge_frame[y * k_camera_width + x]` without a check, and a read outside the frame is undefined behaviour.
- Attractors.BeeHandle.UpdatePoints: requires `numThreads > 0`, `soundDivisor > 0` and all points on the grid. The source divides by both counts and indexes the grid at each point without checks.
- Attractors.BeeHandle.AddAttractorsAvg: requires the new attractors on the grid and `numThreads > 0` when a frame is evicted, for the same reasons.
- CameraField.VectorField.GetVectorFrame: requires output matrices at least the size of the edge frame and a kernel of `fs * fs` entries, which the source assumes without checking.
- ProtoEntity.Vector.ITrueDiv: requires a non-zero divisor. Python raises `ZeroDivisionError` for zero, and the exception is not modelled.
- ProtoEntity.Normalized: requires a non-zero magnitude, for the same reason.
- BeeHandleSimple.BeeHandle.AddBees: sizes `landed` with the corrected `LandedSlots` (a ceiling), not the `num_bees / sound_divisor` of the source, which leaves the last tracked bee without a slot (see the findings).
- ProtoEntity.Entity.constructor: requires `size > 0`. The source asserts it, and the `AssertionError` raised otherwise is not modelled.
- DetectUtils.FirstNumber: the id is an unbounded natural number. `std::stoi` throws `out_of_range` for an id beyond `int`, and that exception is not modelled.
- DetectUtils.QuotedFrom: `.` is taken to stop at `\n`, `\r`, U+2028 and U+2029, the line terminators of the ECMAScript grammar; with `char` input `std::regex` sees only single bytes, so only `\n` and `\r` can occur there.
- Graphics.GraphicsModule.UpdateDisplay: `SortParticles` reorders the particle container with `std::sort` on its own comparison before the buffers are filled; the order of the GPU buffers is rendering detail and the model leaves the container's order as is.
- protoswarm/swarm.py, snow.py and the camera scripts: the driver and demos around the modelled classes.

## Findings

| source | as written | input that shows it | evidently intended | confidence | as-written member | corrected member |
|---|---|---|---|---|---|---|
| swarm/src/swarm.cpp:51-59 | `uniform_random` can return its maximum, and the spawn point is then `y = k_simulation_height + k_bee_radius` | `rand()` returns `RAND_MAX` in the spawn draw | the spawn position drawn from the half-open strip, so the assertion on line 59 holds | not executed | SwarmSim.RandMaxSpawnFailsAssertion | SwarmSim.Bee.constructor |
| swarm/src/audio.cpp:8-19 | `wavfile_names` and `channel_control` have 3 entries but the loops run to `k_state_count`, which is 4 | any call of `audio_render` or `audio_initialize` reads index 3 | one table entry per bee state | not executed | AudioMix.TablesShorterThanStates | AudioMix.Mixer.Render |
| oldsrc/BeeHandleSimple.hpp:159 | `landed` is sized `num_bees / sound_divisor`, but bee `i` with `i % sound_divisor == 0` writes slot `i / sound_divisor` | 16 bees, `sound_divisor` 3: bee 15 is moved and writes slot 5 of 5 | one slot per tracked bee, `ceil(n / sound_divisor)`, which `LandedSlotsCover` shows covers every tracked bee | not executed | BeeHandleSimple.LandedSizeAsWrittenTooSmall | BeeHandleSimple.BeeHandle.AddBees |
| oldsrc/utils.cpp:481 | the overlap is `abs((xB - xA) * (yB - yA))`, so two negative extents multiply to a positive area | scores `[0.9, 0.9]`, unit boxes at `(0, 0)` and `(2, 2)`, both thresholds 0.5: IOU 1, and `filterBoxes` returns `[0]` | each axis overlap clamped at zero, giving IOU 0 for disjoint boxes, so both boxes are returned | not executed | DetectUtils.DiagonalPairFilteredAsWritten | DetectUtils.Iou |
| oldsrc/utils.cpp:279-281 | `t.bad()` is not set when the file fails to open, so a missing file passes the check | a path that does not exist: the status is OK and the map gets no entries | report the file as not found | not executed | DetectUtils.MissingMapFileReportsOk | DetectUtils.ReadLabelsMapFile |
