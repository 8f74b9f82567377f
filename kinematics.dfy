/** The ball of bounce.c and the "really dumb physics" of move_ball
    (bounce.c:126-147) as a pure state update, one axis at a time. */
module Kinematics {
  import opened Config
  import opened MinMax

  /** A ball, with the fields of the C struct in their declared order. */
  datatype Ball = Ball(xpos: int, xdir: int, ypos: int, ydir: int, printable: char)

  /** One axis of a ball: a coordinate and its direction of travel. */
  datatype Axis = Axis(pos: int, dir: int)

  function XAxis(b: Ball): Axis { Axis(b.xpos, b.xdir) }
  function YAxis(b: Ball): Axis { Axis(b.ypos, b.ydir) }

  predicate IsDir(d: int) { d == 1 || d == -1 }

  /** The invariant of one axis: the coordinate is inside the walls and the
      direction is +1 or -1. */
  predicate AxisValid(a: Axis, max: int) {
    1 <= a.pos <= max && IsDir(a.dir)
  }

  /** The invariant of a ball: both axes valid against the box's bounds. */
  predicate InBounds(b: Ball) {
    AxisValid(XAxis(b), MaxXPos) && AxisValid(YAxis(b), MaxYPos)
  }

  /** An axis that sits on a wall only while heading away from it. */
  predicate Inward(a: Axis, max: int) {
    AxisValid(a, max) && (a.pos == 1 ==> a.dir == 1) && (a.pos == max ==> a.dir == -1)
  }

  /** A ball whose two axes both point away from any wall they touch:
      the state of every ball once it has been moved at least once. */
  predicate Settled(b: Ball) {
    Inward(XAxis(b), MaxXPos) && Inward(YAxis(b), MaxYPos)
  }

  /** The new coordinate: the candidate `pos + dir*BALL_SPEED` clamped
      with `max(1, min(candidate, max))`. */
  function Advance(a: Axis, max: int): (p: int)
    requires max >= 1
    ensures 1 <= p <= max
    ensures 1 <= a.pos + a.dir * BallSpeed <= max ==> p == a.pos + a.dir * BallSpeed
    ensures a.pos + a.dir * BallSpeed < 1 ==> p == 1
    ensures a.pos + a.dir * BallSpeed > max ==> p == max
  {
    Max(1, Min(a.pos + a.dir * BallSpeed, max))
  }

  /** One step of one axis: advance and clamp, then reverse the direction
      when the clamped coordinate lies on either bound. */
  function AxisStep(a: Axis, max: int): (r: Axis)
    requires max >= 1
    ensures 1 <= r.pos <= max
    ensures r.dir == a.dir || r.dir == -a.dir
    ensures a.dir != 0 ==> (r.dir == -a.dir <==> r.pos == 1 || r.pos == max)
  {
    var p := Advance(a, max);
    Axis(p, if p == 1 || p == max then -a.dir else a.dir)
  }

  /** What move_ball does to the ball: each axis steps on its own. */
  function Step(b: Ball): (r: Ball)
    ensures 1 <= r.xpos <= MaxXPos && 1 <= r.ypos <= MaxYPos
    ensures IsDir(b.xdir) ==> IsDir(r.xdir)
    ensures IsDir(b.ydir) ==> IsDir(r.ydir)
    ensures r.printable == b.printable
  {
    var x := AxisStep(XAxis(b), MaxXPos);
    var y := AxisStep(YAxis(b), MaxYPos);
    Ball(x.pos, x.dir, y.pos, y.dir, b.printable)
  }

  /** The ball after `n` calls of move_ball. */
  function Steps(b: Ball, n: nat): (r: Ball)
    decreases n
  {
    if n == 0 then b else Steps(Step(b), n - 1)
  }

  /** The ball invariant survives a step. */
  lemma StepKeepsInBounds(b: Ball)
    requires InBounds(b)
    ensures InBounds(Step(b))
  {
  }

  /** After any step from a valid state an axis that lies on a wall heads
      away from it: the only way to reach a wall is by moving towards it,
      and reaching it reverses the direction. */
  lemma AxisStepPointsInward(a: Axis, max: int)
    requires max >= 2 && AxisValid(a, max)
    ensures Inward(AxisStep(a, max), max)
  {
  }

  /** From an inward state the clamp never engages: the axis moves by exactly
      one cell, so a ball is never pinned against a wall for two steps. */
  lemma InwardAxisStepUnclamped(a: Axis, max: int)
    requires max >= 2 && Inward(a, max)
    ensures AxisStep(a, max).pos == a.pos + a.dir * BallSpeed
  {
  }

  /** Every ball is settled after its first move, and stays settled. */
  lemma StepSettles(b: Ball)
    requires InBounds(b)
    ensures Settled(Step(b))
  {
    AxisStepPointsInward(XAxis(b), MaxXPos);
    AxisStepPointsInward(YAxis(b), MaxYPos);
  }

  /** The x-axis of a ball after `n` steps depends on its x-axis alone. */
  lemma {:induction false} StepsXAxis(b: Ball, n: nat)
    ensures XAxis(Steps(b, n)) == AxisSteps(XAxis(b), MaxXPos, n)
    ensures Steps(b, n).printable == b.printable
    decreases n
  {
    if n > 0 {
      StepsXAxis(Step(b), n - 1);
    }
  }

  /** The y-axis of a ball after `n` steps depends on its y-axis alone. */
  lemma {:induction false} StepsYAxis(b: Ball, n: nat)
    ensures YAxis(Steps(b, n)) == AxisSteps(YAxis(b), MaxYPos, n)
    decreases n
  {
    if n > 0 {
      StepsYAxis(Step(b), n - 1);
    }
  }

  /** One axis after `n` steps. */
  function AxisSteps(a: Axis, max: int, n: nat): (r: Axis)
    requires max >= 1
    decreases n
  {
    if n == 0 then a else AxisSteps(AxisStep(a, max), max, n - 1)
  }

  /** A ball on the left wall heading left stays on the wall and turns
      right, whatever its other axis does. */
  lemma LeftWallBounce(b: Ball)
    requires b.xpos == 1 && b.xdir == -1
    ensures Step(b).xpos == 1 && Step(b).xdir == 1
  {
  }

  /** A ball on the right wall heading right stays on the wall and turns
      left, whatever its other axis does. */
  lemma RightWallBounce(b: Ball)
    requires b.xpos == MaxXPos && b.xdir == 1
    ensures Step(b).xpos == MaxXPos && Step(b).xdir == -1
  {
  }

  /** Scenario: from (2, 2) heading down and right, two steps reach (4, 4)
      without touching a wall. */
  lemma TwoStepsFromNearCorner()
    ensures Steps(Ball(2, 1, 2, 1, BallGlyph), 2) == Ball(4, 1, 4, 1, BallGlyph)
  {
  }

  /** Any ball that ends a step in a corner reverses both directions in that
      step: the two checks are independent. */
  lemma CornerFlipsBoth(b: Ball)
    requires IsDir(b.xdir) && IsDir(b.ydir)
    requires (Step(b).xpos == 1 || Step(b).xpos == MaxXPos) && (Step(b).ypos == 1 || Step(b).ypos == MaxYPos)
    ensures Step(b).xdir == -b.xdir && Step(b).ydir == -b.ydir
  {
  }

  /** Scenario: from (2, 2) heading up and left, one step reaches the corner
      (1, 1) and turns the ball down and right. */
  lemma CornerScenario()
    ensures Step(Ball(2, -1, 2, -1, BallGlyph)) == Ball(1, 1, 1, 1, BallGlyph)
  {
  }
}
