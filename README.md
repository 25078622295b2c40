# pebble-engine core, modelled in Dafny

This project models the core of pebble-engine, a small entity-component-system
(ECS) game engine written in Python, and proves properties of that model. It
covers four parts:

- **`Vector`** (`vector.dfy`, module `Vectors`). This is the two-dimensional
  value type of `utils/misc.py`, over exact reals.
  - A number given as an operand is broadcast to both axes.
  - Equality is approximate, with tolerance `E = 0.0001`.
  - The reflected operators are aliases of the forward ones, so `s - v`
    computes `v - s`, `s / v` computes `v / s` and `s // v` computes `v // s`.
    This is modelled as written.
  - `+=`, `-=`, `*=`, `/=` and `//=` update the receiving object in place,
    through the class `MutableVector`.
- **Tiles and levels** (`tiles.dfy`, module `Tiles`). This covers the `Tile`
  and `Level` of `physics.py`.
  - A tile is solid unless its height lies strictly between 0.25 and 0.75.
  - The level is a `width` x `height` grid filled by nested loops from a
    noise function.
  - Lookup rounds with Python's `round`, which rounds halves to even. It is
    absent outside the grid.
- **Physics** (`physics.dfy`, module `Physics`). This covers bodies, their
  validation, the per-kind update and the fixed-tick update of the physics
  system.
  - The update integrates every body in list order, then runs the pairwise
    elastic-collision pass over every pair `i < j`.
  - The collision pass is specified by `CollisionPass`, which resolves the
    pairs of `AllPairs` in order. It is proved to visit each pair exactly once
    and to change velocities only.
  - Collisions conserve momentum, and with equal masses they exchange the
    normal components.
- **Registry and frame loop** (`base.dfy`, module `Base`). This covers the
  registry of `base.py`:
  - `Engine.attach` sorts a system into the fixed or the variable list and
    records it by class;
  - `Engine.new` makes an entity;
  - a new `Component` appends itself to its system;
  - `Entity` stores components by class.

  It also covers the accumulator loop of `Engine.start`. Each frame adds
  `min(elapsed, 1)` to the accumulator. It then runs one fixed tick per whole
  `DELTA` in the accumulator, and runs the variable systems once with the time
  consumed. The calls the loop makes to system `update` methods are recorded as
  a trace.
- **Presentation state machines** (`graphics.dfy`, module `Graphics`). These
  are the three updates of `graphics.py`; drawing is not modelled.
  - The `Animator` cursor advances modulo the script length while it
    subtracts frame durations.
  - The `Orientator` maps a direction to an atlas index.
  - The `Tracker` follows its target with a dead zone.

Square roots are foreign calls, so the model never computes one.
- `IsNorm(v, n)` says that `n` is what `norm()` returns.
- `Unit` takes that norm as a parameter.
- The collision pass and the tracker compare squared lengths instead.
- Bridge lemmas (`TouchingIsDistanceTest`, `ApproachingIsUnitTest`,
  `BounceIsUnitNormalFormula`, `NormAtLeastIsNormTest`) show that the squared
  forms agree with the source's tests through `norm()` and `unit()` whenever
  the norm is supplied.

A body's component is appended to the physics system's list in
`Component.__init__`. This happens before `Body.__init__` checks the position,
radius and mass. So a body whose checks fail stays registered. The model
follows the code here. `Physics.Physics.NewBody` states this: a body whose
checks fail stays in `components` with `ready` false.

`System` declares `loop = None`, but `Engine.attach` reads `update_loop`. So a
system class that does not define `update_loop` raises `AttributeError` rather
than the `ValueError` for an unknown loop. `Base.Engine.Attach` models both
errors.

## Model

| member | source | states |
|---|---|---|
| Vectors.Dot | utils/misc.py:13-14 | definition of `Vector.dot`, the sum of the products of the coordinates; `DotAndDistances` states its symmetry |
| Vectors.Distance2 | utils/misc.py:21-24 | definition of `distance2(u, v)`, the squared length of `u - v`; `DotAndDistances` states that it is the dot product of the difference with itself |
| Vectors.Manhattan | utils/misc.py:26-28 | definition of `manhattan(u, v)`, the sum of the absolute axis differences; `ManhattanProperties` states its properties |
| Vectors.Perpendicular | utils/misc.py:40-41 | definition of `perpendicular()`, the quarter turn `(-y, x)`; `PerpendicularProperties` states what it promises |
| Vectors.Neg | utils/misc.py:49-50 | definition of `-v`, both coordinates negated; `PerpendicularProperties` states that two quarter turns give it |
| Vectors.Eq | utils/misc.py:52-53 | definition of `==`: both coordinates differ by strictly less than `E`; `EqReflexiveSymmetric` and `EqNotTransitive` state its properties |
| Vectors.Add | utils/misc.py:55-59 | definition of `+`, componentwise after broadcasting a number operand; `ScalarBroadcast` and `AddSubInverse` state its properties |
| Vectors.Sub | utils/misc.py:73-77 | definition of `-`, componentwise after broadcasting; `AddSubInverse` states that it undoes `+` |
| Vectors.Mul | utils/misc.py:91-95 | definition of `*`, componentwise after broadcasting; `MulDivInverse` states that `/` undoes it |
| Vectors.RAdd | utils/misc.py:61 | `s + v` through `__radd__ = __add__`, which is `v + s`; `ReflectedCommutative` states that it equals `Vector(s) + v` |
| Vectors.RSub | utils/misc.py:79 | `s - v` through `__rsub__ = __sub__`, which is `v - s`; `ReflectedSubtractionReversed` states that it is the negation of the true `s - v` |
| Vectors.RMul | utils/misc.py:97 | `s * v` through `__rmul__ = __mul__`, which is `v * s`; `ReflectedCommutative` states that it equals `Vector(s) * v` |
| Vectors.RTrueDiv | utils/misc.py:115 | `s / v` through `__rtruediv__ = __truediv__`, which is `v / s`; `ReflectedDivisionReciprocal` states that it is the reciprocal of the true `s / v` |
| Vectors.RFloorDiv | utils/misc.py:133 | `s // v` through `__rfloordiv__ = __floordiv__`, which is `v // s`; `ReflectedFloorDivisionExample` gives an input where it differs from the true `s // v` |
| Vectors.ScalarBroadcast | utils/misc.py:30-34 | `Vector(s)` is `(s, s)`, and `+`, `-`, `*`, `/`, `//` given a number `s` give what they give with `Vector(s)` |
| Vectors.Div | utils/misc.py:109-113 | the quotient exists exactly when neither divisor axis is zero (else `/` raises: the handler's retry recurses until `RecursionError`), and multiplying it back by the divisor gives the dividend |
| Vectors.FloorDiv | utils/misc.py:127-131 | defined exactly when neither divisor axis is zero (else `//` raises, by the same recursion as `/`); each axis is a whole number `q` with `q <= u / w < q + 1` |
| Vectors.Unit | utils/misc.py:43-47 | a vector approximately equal to `Vector(0.0)` gives exactly `(0, 0)`; any other has a positive norm `n`, and the result times `n` is the vector and has length one |
| Vectors.UnitOfNearZero | utils/misc.py:43-44 | `unit()` of a vector within `E` of zero on both axes is exactly `(0, 0)` |
| Vectors.NormPositive | utils/misc.py:43-47 | a vector not approximately zero has squared length at least `E * E` and a positive norm, so `unit()` never divides by zero |
| Vectors.UnitLength | utils/misc.py:43-47 | dividing a non-zero vector by its norm gives squared length one |
| Vectors.NormUnique | utils/misc.py:46-47 | two non-negative roots of the squared length are equal: `norm()` is a function of the vector |
| Vectors.AddSubInverse | utils/misc.py:55-77 | adding and then subtracting the same operand (or the reverse) gives back the vector |
| Vectors.MulDivInverse | utils/misc.py:91-113 | dividing by an operand with no zero axis undoes multiplying by it |
| Vectors.ReflectedCommutative | utils/misc.py:61 | `s + v` and `s * v`, computed as `v + s` and `v * s`, equal `Vector(s) + v` and `Vector(s) * v` |
| Vectors.ReflectedSubtractionReversed | utils/misc.py:79 | `s - v` is `v - s`, the negation of `Vector(s) - v` |
| Vectors.ReflectedDivisionReciprocal | utils/misc.py:115 | `s / v` is `v / s`, whose product with `Vector(s) / v` is `(1, 1)` |
| Vectors.ReflectedFloorDivisionExample | utils/misc.py:133 | `1 // Vector((2, 2))` is `(2, 2)` where `Vector(1) // (2, 2)` is `(0, 0)` |
| Vectors.EqReflexiveSymmetric | utils/misc.py:52-53 | approximate equality is reflexive and symmetric |
| Vectors.EqNotTransitive | utils/misc.py:52-53 | approximate equality is not transitive: three vectors `0.00006` apart in turn |
| Vectors.PerpendicularProperties | utils/misc.py:40-41 | `perpendicular(v)` is orthogonal to `v`, keeps its length, and applied twice gives `-v` |
| Vectors.DotAndDistances | utils/misc.py:13-24 | `dot` is symmetric; `distance2(u, v)` is `dot(u - v, u - v)` and is symmetric |
| Vectors.ManhattanProperties | utils/misc.py:26-28 | the Manhattan distance is symmetric and non-negative, and zero exactly between equal vectors |
| Vectors.MutableVector.constructor | utils/misc.py:30-34 | `Vector(v)` holds the coordinates of `v` |
| Vectors.MutableVector.AddInPlace | utils/misc.py:63-71 | `+=` changes this object to `old + o` and returns the same object |
| Vectors.MutableVector.SubInPlace | utils/misc.py:81-89 | `-=` changes this object to `old - o` and returns the same object |
| Vectors.MutableVector.MulInPlace | utils/misc.py:99-107 | `*=` changes this object to `old * o` and returns the same object |
| Vectors.MutableVector.DivInPlace | utils/misc.py:117-125 | `/=` succeeds exactly when no divisor axis is zero, giving `old / o` and the same object. A zero y divisor with a non-zero x divisor vector leaves x divided twice, as the retry in the handler does |
| Vectors.MutableVector.FloorDivInPlace | utils/misc.py:135-143 | `//=` behaves like `/=` with floor quotients, including the double division of x on a zero y divisor |
| Tiles.Tile.Solid | physics.py:136-138 | definition of the `solid` property; `SolidBand` states which heights are solid |
| Tiles.SolidBand | physics.py:136-138 | a tile is solid exactly when its height is at most 0.25 or at least 0.75; 0.25 and 0.75 are solid, 0.5 is not |
| Tiles.RoundHalfEven | physics.py:114 | `round` gives an integer within one half of the argument, and the even one at an exact half |
| Tiles.RoundHalfEvenUnique | physics.py:114 | those two properties determine the result of `round` |
| Tiles.RoundHalfEvenExamples | physics.py:114 | 0.5, 1.5, 2.5, -0.5, -1.5 round to 0, 2, 2, 0, -2 |
| Tiles.BuildGrid | physics.py:99-104 | the grid has `height` rows of `width` tiles, and the tile in row `i`, column `j` is `Tile(j, i, noise(j, i))` |
| Tiles.Level.constructor | physics.py:95-104 | the level keeps its dimensions and noise function, and its grid is generated as `BuildGrid` says |
| Tiles.Level.Lookup | physics.py:112-118 | `level[x, y]` is absent exactly when `round(x)` is outside `[0, width)` or `round(y)` is outside `[0, height)`; otherwise it is the tile at the rounded coordinates |
| Tiles.Level.Size | physics.py:120-122 | `size` is `(width, height)`, the pair of dimensions the grid was generated with: the grid has `height` rows of `width` tiles |
| Physics.DragCoefValue | physics.py:6 | `DRAG_COEF = -Vector(10)` is `-10` on both axes |
| Physics.Advance | physics.py:63-85 | one body's `update(vdelta)` by kind; its contract says the update changes the velocity and the position and nothing else (the lemmas below state how) |
| Physics.NonDynamicUnchanged | physics.py:63-64 | the update of a fixed or kinetic body leaves its whole state unchanged |
| Physics.DynamicVelocity | physics.py:74-77 | a dynamic body's velocity becomes `v + (-10 v + force) / mass * dt` on each axis; its force, radius, mass and kind are untouched |
| Physics.AxisSeparatedMove | physics.py:78-85 | the position is unchanged when the new velocity is approximately zero. Otherwise each coordinate moves to the candidate exactly when the tile tested for that axis, read at the old position, exists and is not solid |
| Physics.AdvanceStaysInLevel | physics.py:79-85 | a body over a tile of the level is still over one after its update |
| Physics.Touching | physics.py:24-28 | definition of the contact test on squared lengths; `TouchingIsDistanceTest` states that it is `distance <= maximum` |
| Physics.Approaching | physics.py:29-32 | definition of the approach test without square roots; `ApproachingIsUnitTest` states that it is `dot(normal, unit(velocity)) < 0` |
| Physics.Elastic | physics.py:37-40 | definition of the elastic formula for `av_p` and `bv_p`; `ElasticExchange` states that it conserves momentum and, with equal masses, exchanges the components |
| Physics.Bounce | physics.py:33-42 | definition of one body's new velocity over `d`; `BounceIsUnitNormalFormula` and `BounceComponents` state what it is |
| Physics.Collide | physics.py:24-42 | one pair changes velocities only, and only when the bodies touch and approach each other |
| Physics.TouchingIsDistanceTest | physics.py:24-28 | the squared-length test is `distance <= (ra + rb) / 2` with `distance = norm(a - b)` |
| Physics.ApproachingIsUnitTest | physics.py:29-32 | the sqrt-free approach test is `dot(unit(d), unit(va - vb)) < 0` |
| Physics.BounceIsUnitNormalFormula | physics.py:29-42 | the new velocity is `normal * av_p + collision * av_c` with `normal = unit(d)` and `collision = perpendicular(normal)` |
| Physics.BounceComponents | physics.py:33-42 | after a bounce the component along the normal is the elastic formula's and the one along the collision direction is unchanged |
| Physics.ElasticExchange | physics.py:37-40 | `ma av_p + mb bv_p == ma av_n + mb bv_n`, and with equal masses `av_p == bv_n` and `bv_p == av_n` |
| Physics.PairBounceNormal | physics.py:33-42 | the two bounces of a pair conserve momentum along the normal and, with equal masses, exchange the normal components |
| Physics.PairBounceMomentum | physics.py:33-42 | the two bounces of a pair conserve the pair's total momentum |
| Physics.CollideConservesMomentum | physics.py:24-42 | a collision conserves momentum along the normal and in total, and with equal masses exchanges the normal components |
| Physics.RowMembers | physics.py:23 | the inner loop for row `i` visits the pairs `(i, j)`, `lo <= j < hi`, in increasing order |
| Physics.RowsMembers | physics.py:22-23 | the first `i` rows visit the pairs `a < b < n` with `a < i`, in increasing order |
| Physics.AllPairsExactlyOnce | physics.py:22-23 | the two loops visit every pair `i < j < n` exactly once, in increasing order, and no other pair |
| Physics.Resolve | physics.py:41-42 | resolving a pair keeps the number of bodies |
| Physics.ResolveKeeps | physics.py:41-42 | resolving a pair changes the velocities of its two bodies only |
| Physics.ApplyPairsKeeps | physics.py:41-42 | resolving any sequence of pairs changes velocities only |
| Physics.RowPassIsApplyPairs | physics.py:23-42 | the inner loop for row `i` resolves the pairs of that row, in order |
| Physics.RowsPassIsApplyPairs | physics.py:22-42 | the outer loop up to row `i` resolves the pairs of the first `i` rows, in order |
| Physics.CollisionPass | physics.py:22-42 | the nested collision loops over a list of states; the pass keeps the number of bodies |
| Physics.CollisionPassVisitsAllPairs | physics.py:22-42 | the collision pass resolves every pair `i < j` exactly once, in increasing order, each on the states the earlier pairs left |
| Physics.CollisionPassKeepsPositions | physics.py:22-42 | the collision pass keeps every body's position and everything else but its velocity |
| Physics.IntegrateAll | physics.py:19-20 | the integration pass gives every body the state of its own update |
| Physics.Tick | physics.py:17-42 | one `update(delta)` of the physics system on a list of states: integration, then the collision pass; it keeps the number of bodies |
| Physics.TickKeepsNonDynamicPositions | physics.py:17-42 | fixed and kinetic bodies do not move during a tick |
| Physics.Body.Register | physics.py:49-50 | `Component.__init__` binds the body to its system before any check; the body is not yet ready |
| Physics.Body.Initialize | physics.py:51-61 | the checks run in order: no tile at the position, then `radius <= 0`, then `mass <= 0`, each a `ValueError`. On success the body holds the position, radius and mass, with zero velocity and force. On failure nothing changes |
| Physics.Body.Update | physics.py:74-85 | the body's new state is its kind's update of its old state |
| Physics.Physics.constructor | physics.py:13-15 | a new physics system has a level of the given size and no bodies |
| Physics.Physics.NewBody | physics.py:49-61 | the new body is appended to `components` whether or not its checks pass; the result is the outcome of `Body.__init__`; a body that passes keeps the system valid |
| Physics.Physics.IntegrateOne | physics.py:19-20 | body `i` takes the state of its own update; the others are unchanged |
| Physics.Physics.Integrate | physics.py:19-20 | the first loop of `update` gives every body the state of its own update, in list order |
| Physics.Physics.CollidePair | physics.py:24-42 | one iteration of the inner loop resolves the pair `(i, j)` on the current states |
| Physics.Physics.CollideRow | physics.py:23-42 | the inner loop for row `i` leaves the states `RowPass` gives |
| Physics.Physics.CollideRowStep | physics.py:22-42 | one iteration of the outer loop advances `RowsPass` by one row |
| Physics.Physics.Collisions | physics.py:22-42 | the nested loops leave the states of `CollisionPass` and keep the system valid |
| Physics.Physics.Update | physics.py:17-42 | `update(delta)` leaves the states of one `Tick`: integration of every body, then the collision pass |
| Base.System.constructor | base.py:76-78 | a system starts with its engine and no components |
| Base.System.Add | base.py:80-81 | `add` appends the component at the end |
| Base.Clamp | base.py:27 | `min(elapsed, 1)` is at most 1 and at most `elapsed`, and is one of them |
| Base.StepsIsProduct | base.py:30-32 | `n` additions of `DELTA` sum to `n * DELTA` |
| Base.StepsAdd | base.py:30-32 | the time of `m + n` ticks is the time of `m` ticks plus that of `n` |
| Base.Ticks | base.py:30-32 | definition of how often the inner `while acum >= DELTA` loop runs; `TicksAtLeast`, `TicksExact` and `TicksConsumeWholeSteps` state its properties |
| Base.TicksAtLeast | base.py:30-32 | if `k` whole steps fit in the accumulator, the loop runs at least `k` times |
| Base.TicksExact | base.py:30-32 | if exactly `t` whole steps fit, the loop runs exactly `t` times |
| Base.TicksConsumeWholeSteps | base.py:30-32 | below `DELTA` no tick runs, and from zero up the ticks consume whole steps and leave less than `DELTA` |
| Base.Each | base.py:33-36 | one pass over a list of systems calls `update(delta)` on each, in list order |
| Base.Repeat | base.py:30-34 | `n` repetitions of a call sequence hold `n` times its calls, every one of them a call of the sequence |
| Base.FrameCalls | base.py:29-36 | the calls of one frame: `ticks` passes over the fixed systems, then the variable systems, each updated once by the frame's time, in list order |
| Base.Engine.constructor | base.py:11-16 | a new engine has no systems, empty fixed and variable lists, and is not running |
| Base.Engine.Attach | base.py:47-59 | `'fixed'` appends the new system to `fixed` only and `'variable'` to `variable` only, and `systems[cls]` becomes the new system. Any other loop raises `ValueError`, and a missing `update_loop` raises `AttributeError`; on an error `systems`, `fixed` and `variable` are unchanged |
| Base.Engine.New | base.py:61-69 | `new()` gives a fresh entity of this engine with no components |
| Base.Engine.Dispatch | base.py:33-36 | the loop over a system list makes the calls `Each` lists |
| Base.Engine.FixedSteps | base.py:29-34 | the inner loop runs once per whole `DELTA` in the accumulator. Each run subtracts `DELTA`, adds it to `delta`, and updates every fixed system in order. It ends with the accumulator below `DELTA`, and not negative if it started that way |
| Base.Engine.Frame | base.py:26-36 | one frame adds `min(elapsed, 1)`, runs the fixed ticks, then updates every variable system once with the time consumed |
| Base.AcumAfter | base.py:23-32 | the accumulator after each frame adds `min(elapsed, 1)` and the inner loop takes out its whole steps |
| Base.StartCalls | base.py:26-36 | the calls of the frame loop: each frame's `FrameCalls`, frame after frame |
| Base.StartCallsLength | base.py:26-36 | over any frames, the trace has `|fixed|` calls per fixed tick plus `|variable|` calls per frame |
| Base.StartCallsToFixed | base.py:30-34 | over any frames, a fixed system that is not also variable is updated `TotalTicks` times for each time it is listed in `fixed` |
| Base.StartCallsToVariable | base.py:35-36 | over any frames, a variable system that is not also fixed is updated once per frame for each time it is listed in `variable` |
| Base.AcumAccounts | base.py:23-32 | with non-negative elapsed times, the steps taken plus the accumulator are `DELTA` plus the clamped elapsed times, and after a frame the accumulator lies in `[0, DELTA)` |
| Base.TicksDeterministic | base.py:23-32 | fixed-step determinism: runs of at least one frame with the same clamped total take the same number of fixed ticks and leave the same accumulator, however the time is split into frames |
| Base.ClampLosesTime | base.py:27 | the clamp limits that determinism to clamped totals: two seconds in one frame give 2 ticks of one second, in two frames 3 |
| Base.Engine.Start | base.py:22-36 | starting from `acum = DELTA`, the calls are those of `StartCalls`, the accumulator is `AcumAfter` and the ticks `TotalTicks` of the frames; the time consumed plus the accumulator equals `DELTA` plus the clamped elapsed times; with non-negative elapsed times the accumulator ends in `[0, DELTA)`; the engine is running |
| Base.Component.constructor | base.py:91-95 | the component is bound to its entity, engine and `engine.systems[system_cls]`, and appended at the end of that system's list |
| Base.NewComponent | base.py:91-95 | constructing a component raises `KeyError` exactly when its system class is not attached; otherwise it is appended to that system |
| Base.Entity.constructor | base.py:100-102 | a new entity has its engine and no components |
| Base.Entity.Attach | base.py:104-107 | the new component is stored under its class, replacing any earlier one; it is bound to `engine.systems[system_cls]` and appended to that system's list, whose earlier entries stay; on `KeyError` nothing is stored |
| Base.Entity.Contains | base.py:112-113 | definition of `cls in entity`; `Entity.Get` states that it holds exactly when `entity[cls]` is a component |
| Base.Entity.Get | base.py:109-113 | `entity[cls]` is present exactly when `cls in entity`, and is then the component stored under `cls` |
| Graphics.AnimatedSprite.Rectangle | utils/graphics.py:55-58 | the rectangle's corner is the offset moved by the current frame's framing, and it has the sprite's size |
| Graphics.Skip | graphics.py:102-106 | the loop ends with the cursor inside the script and the time left at most the current frame's duration; it skips no frame exactly when the time does not exceed the first duration |
| Graphics.SkipAccounts | graphics.py:98-106 | after `k` skips the cursor is `(c + k) % len(script)`, and the time pending has dropped by exactly the durations of the skipped frames |
| Graphics.SkipMinimal | graphics.py:102-106 | before each skip the time still pending exceeded the current frame's duration |
| Graphics.SkipFrames | graphics.py:100-107 | the while loop computes the cursor and time of `Skip`, and sets `dirty` exactly when it skipped a frame |
| Graphics.Animator.constructor | graphics.py:91-95 | the animator starts at cursor 0 with no time elapsed |
| Graphics.Animator.Update | graphics.py:97-111 | `elapsed` grows by `delta`, then cursor and time are those of `Skip`. The sprite's frame and rectangle change only when a frame was skipped, and then the frame is the cursor. An empty script raises `IndexError` after the time is added |
| Graphics.OrientedSprite.Rectangle | utils/graphics.py:36-39 | the rectangle exists exactly when the atlas has an entry for the orientation (else `IndexError`); its corner is the offset moved by that entry, and it has the sprite's size |
| Graphics.DirectionsExclusive | graphics.py:78-85 | no direction equals two of `(0, 1)`, `(-1, 0)`, `(1, 0)`, `(0, -1)`, so at most one of the four tests fires |
| Graphics.Facing | graphics.py:78-85 | the orientation the four tests leave: one of the four recognised indices, or the current one |
| Graphics.FacingTable | graphics.py:78-85 | `(0, 1)`, `(-1, 0)`, `(1, 0)`, `(0, -1)` select 0, 1, 2, 3, any direction within `E` of one selects its index, and any other keeps the orientation |
| Graphics.Orientator.constructor | graphics.py:72-75 | the orientator keeps its sprite |
| Graphics.Orientator.Update | graphics.py:77-86 | the four tests leave the orientation `Facing` gives. The rectangle is then recomputed, and `IndexError` is raised exactly when the atlas has no entry for the orientation |
| Graphics.NormAtLeastIsNormTest | graphics.py:126 | the squared-length test is `d.norm() >= margin` |
| Graphics.Follow | graphics.py:125-126 | within the margin the position stays; otherwise the gap to the target shrinks by the factor `1 - delta` |
| Graphics.Tracker.constructor | graphics.py:116-121 | the tracker's position is a fresh copy of the target's position |
| Graphics.Tracker.Update | graphics.py:123-126 | `position += d * delta if d.norm() >= margin else 0` updates the position object in place to `Follow` of its old value |

## Left out

- Rendering, the window, fonts and drawing (`Graphics.update`, the `draw` methods, the view centre set by `Tracker.update`, `Engine.stop`, `framerate`): these are I/O.
- The clock: `Engine.Start` and `Engine.Frame` take the elapsed seconds of each frame as input. The loop stops after the given frames, where `stop()` would end it.
- `fps_delta`, the moving average of frame times: it is floating-point diagnostics that nothing reads.
- `update` of the systems called by the frame loop: this is code the engine does not define. The loop records the calls as a trace and assumes they do not change the engine's system lists.
- `Engine.new(entity_cls, ...)` with an entity class: this calls user code. `Engine.New` models `new()`, and `Base.Entity.Attach` and `Base.NewComponent` model constructing a component with only the base class's work.
- Constructor arguments forwarded to systems and components (`*args`, `**kwargs`): they are user code. The system and component classes are names (`ClassId`).
- `settings.py` is not part of this model: `DELTA` is the engine's `delta`, a positive constructor parameter.
- `scaled_octave_noise_2d`: its module is not part of this model. It is the level's `noise` function parameter.
- `math.sqrt`: a foreign call. The norm is a parameter constrained by `IsNorm`, and comparisons use squared lengths.
- IEEE floating point: all arithmetic is on exact reals.
- `Vector.random` (randomness), `project` (pixel truncation for drawing), `__iter__`, `__str__` and `__repr__`: they have no part in the modelled behaviour. The tuple unpacking that `__iter__` allows is modelled where it is used, as copying a vector.
- `Level.__iter__`: the grid is exposed as a sequence.
- `input.py`: event polling and keyboard state are foreign calls. `Orientator.Update` takes the target's direction as a parameter, and `Tracker.Update` takes the target's position.
- The sprite classes of `utils/graphics.py` are kept only as the fields the updates touch. Their constructors, which compute the first rectangle through the library's `Sprite`, are not modelled.
- Graphics.Animator.Update: requires every frame duration to be positive. With a zero or negative duration the loop of the source may not terminate (e.g. a single frame of duration 0 and positive elapsed time).
- Graphics.Animator.Update: does not model the separate `cursor += 1` and `cursor %= len` statements. They are one assignment here, and nothing observes the state between them.
- Physics.Body.Initialize: the position is kept as a value, so the fresh copy `Vector(position)` needs no counterpart. Aliasing between the given and the stored vector cannot arise in the model.
- Python version: the model takes `raise StopIteration` inside `Vector.__iter__` (utils/misc.py:145-148) to end the iteration, as it does up to Python 3.6. From 3.7 on it becomes a `RuntimeError`, which would change the copy `Vector(v)` of a vector (`Tracker.__init__`), the handler's retry in `/=` and `//=`, and `level[v]` with a vector.
- Vectors.MutableVector.DivInPlace: the operand is taken by value, so aliasing is not captured. For `v /= v` with `v.y == 0` the source's retry divides `x` by the already updated `x` (giving 1), where the model divides by the old `x`.
- Vectors.MutableVector.FloorDivInPlace: the operand is taken by value; the aliasing case `v //= v` differs as for `DivInPlace`.
- Physics.Body.Initialize: the default argument `mass=1.0` of `Body.__init__` is not modelled; the mass is always passed.
- Graphics.Tracker.constructor: the default argument `margin=0.75` of `Tracker.__init__` is not modelled; the margin is always passed.
- Physics.Physics.Update: requires every body to have passed its checks (`Valid`). The source can fail on a body left without attributes by a failed `Body.__init__` (a failed dynamic body, or any failed body in a pair).
