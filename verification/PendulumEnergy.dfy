/**
 The pendulum's mechanical energy: how much one substep of the simulated plant changes it, and that
 the controller's swing-up drives it to its upright value. The controller's cosine is the plant's.
 */
module PendulumEnergy {
  import opened Bytes
  import opened RealMath
  import opened MockPlant
  import C = Controller

  /** m2 * g * l2 */
  function Weight(s: Settings, b: Body): real { b.m2 * s.nominal.g * b.l2 }

  /** Kinetic energy of inertia j at angular velocity w and potential energy of weight k at cosine c. */
  function EnergyOf(j: real, k: real, w: real, c: real): real { 0.5 * j * w * w + k * c }

  /** Its time derivative at angular acceleration a and sine sn. */
  function RateOf(j: real, k: real, w: real, a: real, sn: real): real { j * w * a - k * sn * w }

  /** What a step of length h adds to it for every h^2. */
  function SecondOrder(j: real, k: real, a: real, sn: real): real { 0.5 * j * a * a - k * a * sn }

  /** The part of a change that a rate and a second-order term do not account for. */
  function Unexplained(change: real, rate: real, second: real, h: real): real {
    change - rate * h - second * (h * h)
  }

  /** The pendulum's energy, with zero height at the hinge and the angle measured from upright. */
  function Energy(m: Maths, s: Settings, b: Body, q2: real, w: real): real {
    EnergyOf(b.j2Pivot, Weight(s, b), w, m.cos(q2))
  }

  function EnergyRate(m: Maths, s: Settings, b: Body, q2: real, w: real, a: real): real {
    RateOf(b.j2Pivot, Weight(s, b), w, a, m.sin(q2))
  }

  ghost predicate Bends(m: Maths, x: real, d: real) {
    Abs(m.cos(x + d) - m.cos(x) + d * m.sin(x)) <= 0.5 * (d * d)
  }

  /** What is used of the trigonometric functions: minus the sine is the cosine's slope, which changes at
      most at rate one, and the period is 2 pi. */
  ghost predicate Trigonometric(m: Maths) {
    && m.pi > 0.0
    && (forall x, d :: Bends(m, x, d))
    && (forall x :: m.cos(WrapPi(m, x)) == m.cos(x))
  }

  // ---- one substep -----------------------------------------------------------------------------------

  lemma KineticChange(j: real, w: real, a: real, h: real)
    ensures 0.5 * j * (w + a * h) * (w + a * h) == 0.5 * j * w * w + j * w * a * h + 0.5 * j * a * a * (h * h)
  {
    var d := a * h;
    assert (w + d) * (w + d) == w * w + 2.0 * (w * d) + d * d;
    assert 0.5 * j * (w + d) * (w + d) == 0.5 * j * ((w + d) * (w + d));
    assert 0.5 * j * (2.0 * (w * d)) == j * (w * d);
    assert w * d == w * a * h && d * d == a * a * (h * h);
    assert j * (w * d) == j * w * a * h;
    assert 0.5 * j * (d * d) == 0.5 * j * a * a * (h * h);
    assert 0.5 * j * (w * w) == 0.5 * j * w * w;
  }

  lemma PotentialChange(k: real, sn: real, w: real, a: real, h: real, r: real)
    ensures k * (r - (w + a * h) * h * sn) == k * r - k * sn * w * h - k * a * sn * (h * h)
  {
    var x := (w + a * h) * h;
    assert x == w * h + a * (h * h);
    assert k * (r - x * sn) == k * r - k * (x * sn);
    assert x * sn == w * h * sn + a * (h * h) * sn;
    assert k * (w * h * sn) == k * sn * w * h;
    assert k * (a * (h * h) * sn) == k * a * sn * (h * h);
  }

  lemma Sizes(k: real, r: real, bound: real)
    requires Abs(r) <= bound
    ensures Abs(k * r) <= Abs(k) * bound
  {
    NotNegative(Abs(k), bound - Abs(r));
    assert Abs(k) * (bound - Abs(r)) == Abs(k) * bound - Abs(k) * Abs(r);
    if k >= 0.0 { AbsOfProduct(r, k); } else { AbsOfProduct(r, -k); assert r * -k == -(k * r); }
  }

  /** The part of a cosine's change over a step by x that its slope at the start does not account for. */
  function Bend(k: real, c: real, c': real, x: real, sn: real): real { k * (c' - c + x * sn) }

  /** Half the weight times the square of the angle covered. */
  function BendingBound(k: real, x: real): real { 0.5 * Abs(k) * (x * x) }

  /** The cosine after a step by x, wrapped. */
  lemma CosineChange(m: Maths, q: real, x: real, k: real)
    requires Trigonometric(m)
    ensures Abs(Bend(k, m.cos(q), m.cos(WrapPi(m, q + x)), x, m.sin(q))) <= BendingBound(k, x)
  {
    hide WrapPi;
    assert Bends(m, q, x);
    assert m.cos(WrapPi(m, q + x)) == m.cos(q + x);
    Sizes(k, m.cos(q + x) - m.cos(q) + x * m.sin(q), 0.5 * (x * x));
    assert Abs(k) * (0.5 * (x * x)) == 0.5 * Abs(k) * (x * x);
  }

  /** The two Euler steps of a substep, velocity first. */
  lemma EulerSteps(m: Maths, s: Settings, b: Body, p: Plant, command: Option<real>, h: real, n: Noise)
    returns (x: real)
    requires m.pi > 0.0 && BodyOk(m, s, b) && h > 0.0
    ensures var p' := Integrated(m, s, b, p, command, h, n);
            && p'.q2Dot == p.q2Dot + p'.q2DdotPrev * h
            && x == p'.q2Dot * h && p'.q2 == WrapPi(m, p.q2 + x)
  {
    hide WrapPi, NewArm, Feasible, LosesSteps, Commanded, Disturbed, Realised, PendulumAccel;
    x := Integrated(m, s, b, p, command, h, n).q2Dot * h;
  }

  /** The change of the energy when w goes to w + a * h and the cosine from c to c'. */
  lemma EnergyAlgebra(j: real, k: real, w: real, w': real, a: real, h: real, x: real, c: real, c': real, sn: real)
    requires w' == w + a * h && x == w' * h
    ensures Unexplained(EnergyOf(j, k, w', c') - EnergyOf(j, k, w, c), RateOf(j, k, w, a, sn),
                        SecondOrder(j, k, a, sn), h)
            == Bend(k, c, c', x, sn)
  {
    var r := c' - c + x * sn;
    KineticChange(j, w, a, h);
    PotentialChange(k, sn, w, a, h, r);
    assert r - x * sn == c' - c;
    assert k * (r - x * sn) == k * c' - k * c;
    assert (j * w * a - k * sn * w) * h == j * w * a * h - k * sn * w * h;
    assert (0.5 * j * a * a - k * a * sn) * (h * h) == 0.5 * j * a * a * (h * h) - k * a * sn * (h * h);
  }

  /** One substep changes the energy by h times its rate plus h^2 times an exact second-order term, up to
      half the weight times the square of the angle covered: for any command, noise and arm motion. */
  lemma EnergyOverASubstep(m: Maths, s: Settings, b: Body, p: Plant, command: Option<real>, h: real, n: Noise)
    requires Trigonometric(m) && BodyOk(m, s, b) && h > 0.0
    ensures var p' := Integrated(m, s, b, p, command, h, n);
            var a := p'.q2DdotPrev;
            Abs(Unexplained(Energy(m, s, b, p'.q2, p'.q2Dot) - Energy(m, s, b, p.q2, p.q2Dot),
                            EnergyRate(m, s, b, p.q2, p.q2Dot, a),
                            SecondOrder(b.j2Pivot, Weight(s, b), a, m.sin(p.q2)), h))
            <= BendingBound(Weight(s, b), p'.q2Dot * h)
  {
    hide WrapPi, Integrated, Weight, BodyOk, Abs, Unexplained, EnergyOf, RateOf, SecondOrder, BendingBound, Bend;
    var p' := Integrated(m, s, b, p, command, h, n);
    var x := EulerSteps(m, s, b, p, command, h, n);
    CosineChange(m, p.q2, x, Weight(s, b));
    EnergyAlgebra(b.j2Pivot, Weight(s, b), p.q2Dot, p'.q2Dot, p'.q2DdotPrev, h, x,
                  m.cos(p.q2), m.cos(p'.q2), m.sin(p.q2));
  }

  // ---- friction --------------------------------------------------------------------------------------

  /** tanh has the sign of its argument. */
  ghost predicate KeepsSign(tanh: real -> real) {
    forall x :: (x >= 0.0 ==> tanh(x) >= 0.0) && (x <= 0.0 ==> tanh(x) <= 0.0)
  }

  function Friction(m: Maths, b: Body, w: real): real { b.b2 * w + b.c2 * m.tanh(w / 0.001) }

  lemma FrictionDissipates(m: Maths, b: Body, w: real)
    requires b.b2 >= 0.0 && b.c2 >= 0.0 && KeepsSign(m.tanh)
    ensures Friction(m, b, w) * w >= 0.0
  {
    var x := w / 0.001;
    var f := m.tanh(x);
    assert w >= 0.0 <==> x >= 0.0;
    assert w <= 0.0 <==> x <= 0.0;
    if w >= 0.0 {
      NotNegative(b.b2, w);
      NotNegative(b.c2, f);
      NotNegative(Friction(m, b, w), w);
    } else {
      NotNegative(b.b2, -w);
      NotNegative(b.c2, -f);
      assert b.b2 * -w + b.c2 * -f == -Friction(m, b, w);
      NotNegative(-Friction(m, b, w), -w);
      assert -Friction(m, b, w) * -w == Friction(m, b, w) * w;
    }
  }

  /** The torque balance behind pendulum_accel. */
  lemma TorqueBalance(m: Maths, s: Settings, b: Body, q2: real, w: real, v: real, u: real)
    requires BodyOk(m, s, b)
    ensures b.j2Pivot * PendulumAccel(m, s, b, q2, w, v, u)
         == Weight(s, b) * m.sin(q2)
            + (b.m2 * s.nominal.armLength * b.l2 * u + b.m2 * b.l2 * b.l2 * m.sin(q2) * (v * v)) * m.cos(q2)
            - Friction(m, b, w)
  {
    var sn, cs := m.sin(q2), m.cos(q2);
    var f := m.tanh(w / 0.001);
    var total := b.m2 * s.nominal.g * b.l2 * sn + b.m2 * s.nominal.armLength * b.l2 * cs * u
                 + b.m2 * b.l2 * b.l2 * sn * cs * v * v + -b.b2 * w + -b.c2 * f;
    QuotientTimes(total, b.j2Pivot);
    var x, y := b.m2 * s.nominal.armLength * b.l2, b.m2 * b.l2 * b.l2 * sn;
    assert x * cs * u == x * u * cs;
    assert y * cs * v * v == y * (v * v) * cs;
    assert (x * u + y * (v * v)) * cs == x * u * cs + y * (v * v) * cs;
    assert -b.b2 * w == -(b.b2 * w) && -b.c2 * f == -(b.c2 * f);
  }

  /** The power the arm's acceleration u and velocity v put into a pendulum at angular velocity w. */
  function DriveRate(m2: real, arm: real, l2: real, u: real, v: real, sn: real, cs: real, w: real): real {
    (m2 * arm * l2 * u + m2 * l2 * l2 * sn * (v * v)) * cs * w
  }

  /** The power balance: the energy changes by what the arm's motion does to the pendulum and by what
      friction takes. */
  lemma PowerBalance(m: Maths, s: Settings, b: Body, q2: real, w: real, v: real, u: real)
    requires BodyOk(m, s, b)
    ensures EnergyRate(m, s, b, q2, w, PendulumAccel(m, s, b, q2, w, v, u))
         == DriveRate(b.m2, s.nominal.armLength, b.l2, u, v, m.sin(q2), m.cos(q2), w) - Friction(m, b, w) * w
  {
    hide PendulumAccel, Friction, Weight;
    TorqueBalance(m, s, b, q2, w, v, u);
    var k, f := Weight(s, b) * m.sin(q2), Friction(m, b, w);
    var drive := (b.m2 * s.nominal.armLength * b.l2 * u + b.m2 * b.l2 * b.l2 * m.sin(q2) * (v * v)) * m.cos(q2);
    var a := PendulumAccel(m, s, b, q2, w, v, u);
    assert b.j2Pivot * w * a == b.j2Pivot * a * w;
    assert (k + drive - f) * w == k * w + drive * w - f * w;
  }

  /** Without noise a substep accelerates the pendulum as the arm's realised motion asks. */
  lemma SubstepAcceleration(m: Maths, s: Settings, b: Body, p: Plant, command: Option<real>, h: real, n: Noise)
    requires m.pi > 0.0 && BodyOk(m, s, b) && h > 0.0 && s.nominal.pendulumNoise * n.pendulum == 0.0
    ensures var p' := Integrated(m, s, b, p, command, h, n);
            p'.q2DdotPrev == PendulumAccel(m, s, b, p.q2, p.q2Dot, p.q1Dot, Realised(p.q1Dot, p'.q1Dot, h))
  {
    hide WrapPi, NewArm, Feasible, LosesSteps, Commanded, Realised, PendulumAccel, Moved;
  }

  /** In general it is what the arm's realised acceleration u asks, whatever limited that, plus the noise. */
  lemma PendulumFeelsTheRealisedMotion(
      m: Maths, s: Settings, b: Body, p: Plant, command: Option<real>, h: real, n: Noise)
    returns (u: real, noise: real)
    requires m.pi > 0.0 && BodyOk(m, s, b) && h > 0.0
    ensures var p' := Integrated(m, s, b, p, command, h, n);
            && u * h == p'.q1Dot - p.q1Dot && noise == s.nominal.pendulumNoise * n.pendulum
            && p'.q2DdotPrev == PendulumAccel(m, s, b, p.q2, p.q2Dot, p.q1Dot, u) + noise
  {
    hide Integrated, PendulumAccel, Realised, Disturbed, BodyOk;
    var p' := Integrated(m, s, b, p, command, h, n);
    u, noise := Realised(p.q1Dot, p'.q1Dot, h), s.nominal.pendulumNoise * n.pendulum;
    DisturbedAcceleration(m, s, b, p, command, h, n);
    RealisedIs(p.q1Dot, p'.q1Dot, h);
    DisturbedIs(s, PendulumAccel(m, s, b, p.q2, p.q2Dot, p.q1Dot, u), n);
  }

  lemma DisturbedAcceleration(m: Maths, s: Settings, b: Body, p: Plant, command: Option<real>, h: real, n: Noise)
    requires m.pi > 0.0 && BodyOk(m, s, b) && h > 0.0
    ensures var p' := Integrated(m, s, b, p, command, h, n);
            p'.q2DdotPrev
            == Disturbed(s, PendulumAccel(m, s, b, p.q2, p.q2Dot, p.q1Dot, Realised(p.q1Dot, p'.q1Dot, h)), n)
  {
    hide WrapPi, NewArm, Feasible, LosesSteps, Commanded, Realised, PendulumAccel, Moved, Disturbed;
  }

  lemma RealisedIs(before: real, after_: real, h: real)
    requires h > 0.0
    ensures Realised(before, after_, h) * h == after_ - before
  {
    QuotientTimes(after_ - before, h);
  }

  lemma DisturbedIs(s: Settings, a: real, n: Noise)
    ensures Disturbed(s, a, n) == a + s.nominal.pendulumNoise * n.pendulum
  {}

  /** A substep that leaves a still arm still, without noise. */
  ghost predicate StillSubstep(m: Maths, s: Settings, b: Body, p: Plant, command: Option<real>, h: real, n: Noise)
    requires m.pi > 0.0 && BodyOk(m, s, b) && h > 0.0
  {
    && s.nominal.pendulumNoise * n.pendulum == 0.0
    && p.q1Dot == 0.0 && Integrated(m, s, b, p, command, h, n).q1Dot == 0.0
  }

  lemma StillArmRate(m: Maths, s: Settings, b: Body, p: Plant, command: Option<real>, h: real, n: Noise)
    requires m.pi > 0.0 && BodyOk(m, s, b) && h > 0.0 && StillSubstep(m, s, b, p, command, h, n)
    ensures EnergyRate(m, s, b, p.q2, p.q2Dot, Integrated(m, s, b, p, command, h, n).q2DdotPrev)
         == -(Friction(m, b, p.q2Dot) * p.q2Dot)
    ensures b.j2Pivot * Integrated(m, s, b, p, command, h, n).q2DdotPrev
         == Weight(s, b) * m.sin(p.q2) - Friction(m, b, p.q2Dot)
  {
    hide Integrated, PendulumAccel, Friction, Weight, EnergyRate;
    SubstepAcceleration(m, s, b, p, command, h, n);
    PowerBalance(m, s, b, p.q2, p.q2Dot, 0.0, 0.0);
    TorqueBalance(m, s, b, p.q2, p.q2Dot, 0.0, 0.0);
    var x, y := b.m2 * s.nominal.armLength * b.l2, b.m2 * b.l2 * b.l2 * m.sin(p.q2);
    assert x * 0.0 == 0.0 && y * (0.0 * 0.0) == 0.0;
    assert 0.0 * m.cos(p.q2) * p.q2Dot == 0.0;
  }

  /** With the arm held still friction is all that acts on the energy to first order: it takes
      h * friction * velocity, and what a substep can add is of order h^2. */
  lemma StillArmDissipates(m: Maths, s: Settings, b: Body, p: Plant, command: Option<real>, h: real, n: Noise)
    requires Trigonometric(m) && BodyOk(m, s, b) && h > 0.0 && StillSubstep(m, s, b, p, command, h, n)
    requires b.b2 >= 0.0 && b.c2 >= 0.0 && KeepsSign(m.tanh)
    ensures var p' := Integrated(m, s, b, p, command, h, n);
            var second := SecondOrder(b.j2Pivot, Weight(s, b), p'.q2DdotPrev, m.sin(p.q2));
            && Friction(m, b, p.q2Dot) * p.q2Dot >= 0.0
            && Energy(m, s, b, p'.q2, p'.q2Dot) - Energy(m, s, b, p.q2, p.q2Dot)
               <= -(Friction(m, b, p.q2Dot) * p.q2Dot) * h + second * (h * h)
                  + BendingBound(Weight(s, b), p'.q2Dot * h)
  {
    hide Integrated, Friction, Weight, EnergyRate, Energy, SecondOrder, BendingBound, KeepsSign, BodyOk;
    EnergyOverASubstep(m, s, b, p, command, h, n);
    StillArmRate(m, s, b, p, command, h, n);
    FrictionDissipates(m, b, p.q2Dot);
  }

  /** The terms of order h^2 are real: without friction a substep that starts at the hanging point leaves
      the velocity as it is and raises the energy by the height it climbs. */
  lemma HangingSubstepClimbs(m: Maths, s: Settings, b: Body, p: Plant, command: Option<real>, h: real, n: Noise)
    requires Trigonometric(m) && BodyOk(m, s, b) && h > 0.0 && StillSubstep(m, s, b, p, command, h, n)
    requires b.b2 == 0.0 && b.c2 == 0.0 && m.sin(p.q2) == 0.0 && m.cos(p.q2) == -1.0
    ensures var p' := Integrated(m, s, b, p, command, h, n);
            && p'.q2Dot == p.q2Dot
            && Energy(m, s, b, p'.q2, p'.q2Dot) - Energy(m, s, b, p.q2, p.q2Dot)
               == Weight(s, b) * (m.cos(p'.q2) + 1.0)
  {
    hide Integrated, Weight;
    var p' := Integrated(m, s, b, p, command, h, n);
    StillArmRate(m, s, b, p, command, h, n);
    var _ := EulerSteps(m, s, b, p, command, h, n);
    var f := m.tanh(p.q2Dot / 0.001);
    assert 0.0 * p.q2Dot + 0.0 * f == 0.0 && Weight(s, b) * 0.0 == 0.0;
    NoProductNoFactor(b.j2Pivot, p'.q2DdotPrev);
    assert 0.0 * h == 0.0;
    var k, c := Weight(s, b), m.cos(p'.q2);
    assert k * (c + 1.0) == k * c - k * -1.0;
  }

  lemma NoProductNoFactor(j: real, a: real)
    requires j != 0.0 && j * a == 0.0
    ensures a == 0.0
  {}

  // ---- the controller's swing-up -----------------------------------------------------------------------

  /** The controller is configured with the plant's constants. */
  predicate Matches(c: C.Config, s: Settings, b: Body) {
    c.m2 == b.m2 && c.l2 == b.l2 && c.j2 == b.j2Pivot && c.g == s.nominal.g
  }

  /** What the saturated sum of a pump of full size against x and a smaller centring term still does. */
  lemma PushOpposes(x: real, pump: real, arm: real, size: real, max: real)
    requires Abs(arm) <= size && max >= 0.0
    requires (x > 0.0 ==> pump == -size) && (x < 0.0 ==> pump == size)
    ensures var margin := MinReal(size - Abs(arm), max);
            margin >= 0.0 && x * Clamp(pump + arm, -max, max) <= -(margin * Abs(x))
  {
    var margin, u := MinReal(size - Abs(arm), max), Clamp(pump + arm, -max, max);
    if x > 0.0 {
      NotNegative(x, -margin - u);
      assert x * (-margin - u) == -(margin * x) - x * u;
    } else if x < 0.0 {
      NotNegative(-x, u - margin);
      assert -x * (u - margin) == -(x * u) + margin * x;
    } else {
      assert 0.0 * u == 0.0 && margin * 0.0 == 0.0;
    }
  }

  lemma ProductAtMost(x: real, y: real)
    ensures x * y <= Abs(x) * Abs(y)
  {
    if y >= 0.0 { AbsOfProduct(x, y); } else { AbsOfProduct(x, -y); assert x * -y == -(x * y); }
  }

  /** m2 * L1 * l2 times what is left of the pump, less the centrifugal term. */
  function AuthorityOf(m2: real, arm: real, l2: real, margin: real, v: real, sn: real): real {
    m2 * arm * l2 * margin - m2 * l2 * l2 * (v * v) * Abs(sn)
  }

  /** How far the pump outweighs arm-centring, saturation and the arm's own motion. */
  function Authority(m: Maths, s: Settings, b: Body, c: C.Config, i: C.Input): real
    requires m.pi > 0.0
  {
    AuthorityOf(b.m2, s.nominal.armLength, b.l2,
                MinReal(c.swingAccelMax - Abs(C.Centring(c, i)), c.motorAccelMax),
                C.OrZero(i.q1d), m.sin(C.Tilt(m.pi, i)))
  }

  /** Energy error times velocity times cosine: what the pump looks at. */
  function Lever(error: real, w: real, cs: real): real { error * w * cs }

  function Times(x: real, y: real): real { x * y }

  /** The whole swing-up command, pump, arm-centring and saturation, put through the frictionless plant:
      inside the arm zone and past the dead start, the energy error times the energy's time derivative is at
      most minus the authority times the magnitude of error * velocity * cosine. So wherever the pump
      outweighs the rest, the energy does not move away from its upright value. */
  lemma SwingUpApproachesUpright(m: Maths, s: Settings, b: Body, c: C.Config, i: C.Input)
    requires m.pi > 0.0 && BodyOk(m, s, b) && Matches(c, s, b) && C.ConfigOk(c)
    requires b.b2 == 0.0 && b.c2 == 0.0 && b.m2 >= 0.0 && s.nominal.armLength * b.l2 >= 0.0
    requires Abs(C.OrZero(i.q1)) < c.armZone && Abs(C.OrZero(i.q2d)) > c.swingStartVel
    requires Abs(C.Centring(c, i)) <= c.swingAccelMax
    ensures var q2, w, v := C.Tilt(m.pi, i), C.OrZero(i.q2d), C.OrZero(i.q1d);
            var u := C.Saturated(c, C.SwingUp(m.pi, m.cos, c, i));
            var error := Energy(m, s, b, q2, w) - Weight(s, b);
            var rate := EnergyRate(m, s, b, q2, w, PendulumAccel(m, s, b, q2, w, v, u));
            && Times(error, rate) <= -Times(Authority(m, s, b, c, i), Abs(Lever(error, w, m.cos(q2))))
            && (Authority(m, s, b, c, i) >= 0.0 ==> error * rate <= 0.0)
  {
    hide C.Tilt, C.Pump, C.Centring, PendulumAccel, C.EnergyError, EnergyRate, BodyOk;
    hide Energy, Weight, AuthorityOf, Lever, Times, DriveRate, Friction;
    var q2, w, v := C.Tilt(m.pi, i), C.OrZero(i.q2d), C.OrZero(i.q1d);
    var u := C.Saturated(c, C.SwingUp(m.pi, m.cos, c, i));
    var error := Energy(m, s, b, q2, w) - Weight(s, b);
    var margin := MinReal(c.swingAccelMax - Abs(C.Centring(c, i)), c.motorAccelMax);
    ErrorsAgree(m, s, b, c, q2, w);
    PumpPushes(c, m.cos(q2), i, error);
    PushOpposes(Lever(error, w, m.cos(q2)), C.Pump(c, m.cos(q2), i), C.Centring(c, i), c.swingAccelMax,
                c.motorAccelMax);
    PowerBalance(m, s, b, q2, w, v, u);
    NoFriction(m, b, w);
    SwingAlgebra(error, w, m.cos(q2), m.sin(q2), v, u, b.m2, s.nominal.armLength, b.l2, margin);
    if Authority(m, s, b, c, i) >= 0.0 {
      NotPositive(error, EnergyRate(m, s, b, q2, w, PendulumAccel(m, s, b, q2, w, v, u)),
                  Authority(m, s, b, c, i), Abs(Lever(error, w, m.cos(q2))));
    }
  }

  lemma NotPositive(x: real, y: real, a: real, b: real)
    requires Times(x, y) <= -Times(a, b) && a >= 0.0 && b >= 0.0
    ensures x * y <= 0.0
  {
    NotNegative(a, b);
  }

  lemma PumpPushes(c: C.Config, cosine: real, i: C.Input, error: real)
    requires Abs(C.OrZero(i.q1)) < c.armZone && Abs(C.OrZero(i.q2d)) > c.swingStartVel
    requires error == C.EnergyError(c, cosine, C.OrZero(i.q2d))
    ensures Lever(error, C.OrZero(i.q2d), cosine) > 0.0 ==> C.Pump(c, cosine, i) == -c.swingAccelMax
    ensures Lever(error, C.OrZero(i.q2d), cosine) < 0.0 ==> C.Pump(c, cosine, i) == c.swingAccelMax
  {
    hide C.Pump, C.EnergyError;
    C.PumpOpposesTheEnergyError(c, cosine, i);
  }

  lemma NoFriction(m: Maths, b: Body, w: real)
    requires b.b2 == 0.0 && b.c2 == 0.0
    ensures Friction(m, b, w) * w == 0.0
  {
    var f := m.tanh(w / 0.001);
    assert 0.0 * w + 0.0 * f == 0.0;
  }

  lemma ErrorsAgree(m: Maths, s: Settings, b: Body, c: C.Config, q2: real, w: real)
    requires Matches(c, s, b)
    ensures C.EnergyError(c, m.cos(q2), w) == Energy(m, s, b, q2, w) - Weight(s, b)
  {}

  lemma SwingAlgebra(e: real, w: real, cs: real, sn: real, v: real, u: real, m2: real, arm: real, l2: real,
                     margin: real)
    requires m2 >= 0.0 && arm * l2 >= 0.0
    requires Lever(e, w, cs) * u <= -(margin * Abs(Lever(e, w, cs)))
    ensures Times(e, DriveRate(m2, arm, l2, u, v, sn, cs, w))
         <= -Times(AuthorityOf(m2, arm, l2, margin, v, sn), Abs(Lever(e, w, cs)))
  {
    var x, k1 := e * w * cs, m2 * (arm * l2);
    var k2 := m2 * (l2 * l2) * (v * v);
    NotNegative(m2, arm * l2);
    Square(l2);
    Square(v);
    NotNegative(m2, l2 * l2);
    NotNegative(m2 * (l2 * l2), v * v);
    ProductAtMost(x, sn);
    NotNegative(k1, -(margin * Abs(x)) - x * u);
    NotNegative(k2, Abs(x) * Abs(sn) - x * sn);
    assert k1 * (-(margin * Abs(x)) - x * u) == -(k1 * (margin * Abs(x))) - k1 * (x * u);
    assert k2 * (Abs(x) * Abs(sn) - x * sn) == k2 * (Abs(x) * Abs(sn)) - k2 * (x * sn);
    assert m2 * arm * l2 == k1;
    assert m2 * l2 * l2 * sn * (v * v) == k2 * sn && m2 * l2 * l2 * (v * v) == k2;
    Regrouped(e, w, cs, k1, u, k2 * sn);
    assert k2 * sn * x == k2 * (x * sn);
    assert (k1 * margin - k2 * Abs(sn)) * Abs(x) == k1 * (margin * Abs(x)) - k2 * (Abs(x) * Abs(sn));
  }

  lemma Regrouped(e: real, w: real, cs: real, k1: real, u: real, y: real)
    ensures e * ((k1 * u + y) * cs * w) == k1 * (e * w * cs * u) + y * (e * w * cs)
  {
    var z := k1 * u + y;
    assert e * (z * cs * w) == z * (e * w * cs);
  }

  lemma Square(x: real)
    ensures x * x >= 0.0
  {
    if x >= 0.0 { NotNegative(x, x); } else { NotNegative(-x, -x); assert -x * -x == x * x; }
  }
}
