/** A closed form of a ball's motion. Once settled, each axis of a ball runs
    round a cycle of 2*(max-1) states, so its coordinate over time is a
    triangle wave between 1 and max. This is an independent reference
    definition against which the step-by-step physics of move_ball is
    proved. */
module Trajectory {
  import opened Config
  import opened Kinematics

  /** The number of steps for one axis to go from one wall to the other
      and back. */
  function Period(max: int): (p: int)
    requires max >= 2
    ensures p >= 2
  {
    2 * (max - 1)
  }

  /** The position of an inward state on the cycle: 0 on the low wall
      heading up, max-1 on the high wall heading down. */
  function Phase(a: Axis, max: int): (u: int)
    requires max >= 2 && Inward(a, max)
    ensures 0 <= u < Period(max)
  {
    if a.dir == 1 then a.pos - 1 else 2 * max - 1 - a.pos
  }

  /** The inward state at a given point of the cycle: a triangle wave. */
  function AtPhase(u: int, max: int): (a: Axis)
    requires max >= 2 && 0 <= u < Period(max)
    ensures Inward(a, max)
  {
    if u < max - 1 then Axis(u + 1, 1) else Axis(2 * max - 1 - u, -1)
  }

  /** Phase and AtPhase are inverse: every inward state has exactly one
      point on the cycle. */
  lemma PhaseRoundTrip(a: Axis, max: int)
    requires max >= 2 && Inward(a, max)
    ensures AtPhase(Phase(a, max), max) == a
  {
  }

  lemma AtPhaseRoundTrip(u: int, max: int)
    requires max >= 2 && 0 <= u < Period(max)
    ensures Phase(AtPhase(u, max), max) == u
  {
  }

  /** One step of the physics moves one point forward on the cycle,
      wrapping from the last point back to the first. */
  lemma StepAtPhase(u: int, max: int)
    requires max >= 2 && 0 <= u < Period(max)
    ensures AxisStep(AtPhase(u, max), max)
         == AtPhase(if u + 1 == Period(max) then 0 else u + 1, max)
  {
  }

  /** k*p >= p for a positive multiplier. */
  lemma MulAtLeast(k: int, p: int)
    requires k >= 1 && p > 0
    ensures k * p >= p
  {
    assert k * p == (k - 1) * p + p;
    assert (k - 1) * p >= 0;
  }

  /** The remainder is determined by any decomposition n == q*p + r. */
  lemma ModOfDecomposition(n: int, p: int, q: int, r: int)
    requires p > 0 && 0 <= r < p && n == q * p + r
    ensures n % p == r
  {
    var q', r' := n / p, n % p;
    assert n == q' * p + r';
    assert (q - q') * p == r' - r;
    if q > q' {
      MulAtLeast(q - q', p);
    } else if q < q' {
      MulAtLeast(q' - q, p);
    }
  }

  /** Where a settled axis is after `n` steps, in closed form: `n` points
      further round the cycle. */
  lemma {:induction false} AxisTrajectory(a: Axis, max: int, n: nat)
    requires max >= 2 && Inward(a, max)
    ensures AxisSteps(a, max, n) == AtPhase((Phase(a, max) + n) % Period(max), max)
    decreases n
  {
    var p := Period(max);
    var u := Phase(a, max);
    if n == 0 {
      PhaseRoundTrip(a, max);
      ModOfDecomposition(u, p, 0, u);
    } else {
      PhaseRoundTrip(a, max);
      StepAtPhase(u, max);
      var b := AxisStep(a, max);
      var v := if u + 1 == p then 0 else u + 1;
      assert b == AtPhase(v, max);
      AtPhaseRoundTrip(v, max);
      AxisTrajectory(b, max, n - 1);
      assert AxisSteps(a, max, n) == AtPhase((v + (n - 1)) % p, max);
      ModOfDecomposition(u + 1, p, if u + 1 == p then 1 else 0, v);
      ModShift(v, u + 1, n - 1, p);
    }
  }

  /** Two numbers with the same remainder keep equal remainders when the
      same amount is added to both. */
  lemma ModShift(v: int, w: int, k: int, p: int)
    requires p > 0 && v % p == w % p
    ensures (v + k) % p == (w + k) % p
  {
    var qv, qw, r := v / p, w / p, v % p;
    assert v == qv * p + r && w == qw * p + r;
    var s := (r + k) % p;
    var t := (r + k) / p;
    assert r + k == t * p + s;
    assert v + k == (qv + t) * p + s;
    assert w + k == (qw + t) * p + s;
    ModOfDecomposition(v + k, p, qv + t, s);
    ModOfDecomposition(w + k, p, qw + t, s);
  }

  /** The cycle of each axis closes after a whole number of periods. */
  lemma AxisPeriodic(a: Axis, max: int, k: nat)
    requires max >= 2 && Inward(a, max)
    ensures AxisSteps(a, max, k * Period(max)) == a
  {
    var u := Phase(a, max);
    AxisTrajectory(a, max, k * Period(max));
    ModOfDecomposition(u + k * Period(max), Period(max), k, u);
    PhaseRoundTrip(a, max);
  }

  /** Where a settled ball is after `n` ticks, each axis in closed form. */
  lemma BallTrajectory(b: Ball, n: nat)
    requires Settled(b)
    ensures XAxis(Steps(b, n))
         == AtPhase((Phase(XAxis(b), MaxXPos) + n) % Period(MaxXPos), MaxXPos)
    ensures YAxis(Steps(b, n))
         == AtPhase((Phase(YAxis(b), MaxYPos) + n) % Period(MaxYPos), MaxYPos)
  {
    StepsXAxis(b, n);
    StepsYAxis(b, n);
    AxisTrajectory(XAxis(b), MaxXPos, n);
    AxisTrajectory(YAxis(b), MaxYPos, n);
  }

  /** Once settled, every ball returns to exactly the same state, direction
      included, every 462 ticks: 462 is three horizontal periods (154) and
      eleven vertical ones (42). */
  lemma BallPeriodic(b: Ball)
    requires Settled(b)
    ensures Steps(b, 462) == b
  {
    assert Period(MaxXPos) == 154 && Period(MaxYPos) == 42;
    StepsXAxis(b, 462);
    StepsYAxis(b, 462);
    AxisPeriodic(XAxis(b), MaxXPos, 3);
    AxisPeriodic(YAxis(b), MaxYPos, 11);
  }
}
