# Bounce: a verified model of bounce.c

bounce.c draws an ASCII animation of balls bouncing in a box. The box is a
grid of 24 rows of 80 characters, with `-` along the top and bottom and `|`
down the sides. Each ball moves one cell per tick on each axis, is clamped
inside the walls and reverses an axis's direction when it reaches a wall on
that axis. `main` reads the ball count from the command line, spawns the balls
at random, initialises the box and then loops forever: draw the frame, move
every ball, pause.

The model follows the program's structure:

- `Config` holds the `#define` constants.
- `MinMax` holds `max` and `min`.
- `Kinematics` holds the `Ball` struct as a datatype. It models what
  `move_ball` does to a ball as the pure function `Step`, one axis at a time
  (`AxisStep`). Lemmas state the ball invariant, reflection at the walls and
  the fact that a ball settles after its first move.
- `Trajectory` gives an independent closed form of the motion. Once settled,
  each axis runs round a cycle of `2*(max-1)` states, so its coordinate is a
  triangle wave. The lemmas prove that the step-by-step physics follows this
  wave. As a result, every ball, from its first move on, returns to exactly
  the same state every 462 ticks.
- `Arena` holds the `Box` as a class over a 2-D `array2<char>`. `Init` is
  `init_box`, written with its nested loops. `DrawScene` gives the rows that
  `draw_scene` prints.
- `Simulator` holds `MoveBall`, which is `move_ball` on `balls[i]` in place,
  and `Tick`, the loop that moves every ball against the shared box. A tick's
  effect on each cell is stated by the pure functions `CellAfterMove` and
  `CellAfterTick`. The lemmas about them prove three things: the walls
  survive, untouched cells keep their value, and every glyph on screen is the
  current cell of some ball.
- `Driver` holds `main` without its I/O: the ball-count clamp, the spawn
  formulas, the spawn loop and a bounded run of the frame loop (`Animate`).

Two behaviours of the code are easy to miss:

- A ball is never pinned against a wall for two ticks. After its first move,
  a ball on a wall always heads away from it (`StepSettles`), and from then on
  the clamp never engages (`InwardAxisStepUnclamped`).
- `main` spawns the balls before `init_box` and draws them only through
  `move_ball`. So the first frame printed is an empty box (`Animate`).

## Model

| member | source | states |
|---|---|---|
| `MinMax.Max` | bounce.c:62-65 | the result is at least both arguments and is one of them |
| `MinMax.Min` | bounce.c:71-74 | the result is at most both arguments and is one of them |
| `Kinematics.Advance` | bounce.c:128-137 | `max(1, min(pos + dir*BALL_SPEED, MAX))` always lies in `[1, MAX]`; it is the candidate itself when that is in range, 1 below the range and MAX above it |
| `Kinematics.AxisStep` | bounce.c:128-146 | after one step the coordinate is in `[1, MAX]`; the direction keeps its magnitude; it is reversed if and only if the clamped coordinate is 1 or MAX |
| `Kinematics.Step` | bounce.c:126-147 | whatever the candidate position, the new position is inside the walls; directions of +1 or -1 stay +1 or -1; the glyph is unchanged |
| `Kinematics.StepKeepsInBounds` | bounce.c:136-146 | a ball inside the walls with directions of +1 or -1 still satisfies that invariant after `move_ball` |
| `Kinematics.AxisStepPointsInward` | bounce.c:143-146 | after a step from a valid state, an axis on the low wall heads up and an axis on the high wall heads down |
| `Kinematics.InwardAxisStepUnclamped` | bounce.c:129-137 | from such an inward state the axis moves by exactly `dir*BALL_SPEED`, so the clamp does not engage |
| `Kinematics.StepSettles` | bounce.c:126-147 | after its first move every ball is settled: both axes point away from any wall they touch |
| `Kinematics.StepsXAxis` | bounce.c:129-144 | the x position and direction after `n` moves depend on the x axis alone, and the glyph never changes |
| `Kinematics.StepsYAxis` | bounce.c:130-146 | the y position and direction after `n` moves depend on the y axis alone |
| `Kinematics.LeftWallBounce` | bounce.c:136-144 | every ball at x = 1 heading left stays at x = 1 and turns right, whatever its y axis |
| `Kinematics.RightWallBounce` | bounce.c:136-144 | every ball at x = MAX_XPOS heading right stays there and turns left, whatever its y axis |
| `Kinematics.TwoStepsFromNearCorner` | bounce.c:126-147 | from (2, 2) heading down and right, two moves reach (4, 4) with both directions unchanged |
| `Kinematics.CornerFlipsBoth` | bounce.c:143-146 | every ball with directions of +1 or -1 that ends a move in any of the four corners reverses both directions in that move |
| `Kinematics.CornerScenario` | bounce.c:126-147 | one case: from (2, 2) heading up and left, one move reaches (1, 1) heading down and right |
| `Trajectory.StepAtPhase` | bounce.c:129-146 | one step of the physics moves a settled axis one point forward on its triangle-wave cycle, wrapping at the end |
| `Trajectory.AxisTrajectory` | bounce.c:129-146 | a settled axis after `n` steps is at point `(phase + n) mod 2*(MAX-1)` of the cycle |
| `Trajectory.AxisPeriodic` | bounce.c:129-146 | a settled axis returns to its exact state after any whole number of periods |
| `Trajectory.BallTrajectory` | bounce.c:126-147 | closed form of a settled ball's position and direction after `n` ticks, on each axis |
| `Trajectory.BallPeriodic` | bounce.c:126-147 | a settled ball is back in exactly the same state after 462 ticks |
| `Arena.Box.constructor` | bounce.c:163 | the box has HEIGHT rows of WIDTH+1 cells |
| `Arena.Box.Init` | bounce.c:87-103 | afterwards every border cell and every terminator holds the value `Blank` gives for it, and every interior cell is `' '` |
| `Arena.BlankPicture` | bounce.c:91-102 | that picture: `'-'` across rows 0 and HEIGHT-1, `'|'` at columns 0 and WIDTH-1 of the rows between, `' '` inside, and NUL exactly at column WIDTH |
| `Arena.Box.DrawScene` | bounce.c:109-119 | yields HEIGHT lines, each line being row `r` up to its first NUL; when no NUL occurs before column WIDTH, each line is exactly WIDTH characters |
| `Simulator.MoveBall` | bounce.c:126-147 | `balls[i]` becomes `Step` of its old value and the other balls are unchanged; the new cell holds the glyph, the old cell is `' '` unless it is the new cell, and every other cell is unchanged |
| `Simulator.Tick` | bounce.c:198-200 | every ball among the first `balls_len` takes one step and the rest are unchanged; each cell is the result of the moves in array order; the walls survive; every glyph on screen is still the current cell of some ball |
| `Simulator.UntouchedCellKept` | bounce.c:133-140 | a cell that is neither the old nor the new cell of any ball keeps its value through a tick |
| `Simulator.WallsSurvive` | bounce.c:133-140 | with balls inside the walls, no border or terminator cell changes in a tick |
| `Simulator.TickShowsOnlyBalls` | bounce.c:198-200 | if each glyph was a ball's cell before the tick, then after it every non-empty cell is the new cell of some ball and holds that ball's glyph |
| `Simulator.LaterEraseHidesBall` | bounce.c:198-200 | one two-ball case of last-writer-wins overlap: ball 0 moves into the cell ball 1 leaves, and ball 1's erase, later in the same tick, blanks it |
| `Driver.BallCount` | bounce.c:165-175 | the count is in `[1, MAX_BALLS]`; with no argument it is 1; a value already in range is kept; a value of 0 or less gives 1; a value above 64 gives 64 |
| `Driver.SpawnBall` | bounce.c:185-189 | for any non-negative random values, the ball is inside the walls with directions of +1 or -1 and glyph `'o'`; a direction is +1 exactly when its random value is even |
| `Driver.SpawnReachesEveryBall` | bounce.c:185-189 | every ball inside the walls with glyph `'o'` is produced by some random values |
| `Driver.SpawnBalls` | bounce.c:184-190 | ball `k` is spawned from calls `4k` to `4k+3` of `random()`; the balls beyond `balls_len` are untouched |
| `Driver.Animate` | bounce.c:161-206 | `ticks` frames are printed; each has HEIGHT lines of exactly WIDTH characters, walls on the border, and only `' '` or `'o'` inside; the first frame is an empty box |

## Left out

- `printf` in `draw_scene`: `DrawScene` returns the lines it would print. The newline after each line and write failures are not modelled.
- `delay` and `usleep`: wall-clock pacing, which has no logical content.
- `srandom(time(0))` and `random()`: the random source is a parameter `random: nat -> nat`, whose value at `k` is the `k`-th result of `random()`. Its range of 0 to 2^31-1 is not imposed, and the spawn properties hold for any non-negative values.
- `atoi`: the parsed value is taken as input, with `None` when no argument is given (argc of 1 or less). An unparseable argument is the 0 that `atoi` returns.
- The endless `while (1)` loop and the unreachable `return 0`: `Animate` runs a given number of ticks, and the invariants are proved for every tick.
- `move_ball` through an arbitrary `Ball*`: the program only ever passes `&balls[i]`, so `MoveBall` takes the ball array and an index and updates that element in place. The `Ball` struct is stored by value in that array, so it is a datatype.
- Simulator.MoveBall: 32-bit overflow of `xpos + xdir*BALL_SPEED` is not modelled. It could only happen with a direction far outside +1 or -1, which nothing produces.
- Driver.Animate: the frames' contract states their shape and which glyphs can appear, not where the balls are. That is stated per cell by `Simulator.Tick`.
