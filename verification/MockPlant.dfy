/**
 The simulated pendulum of
 demos/inverted_pendulum/inverted_pendulum_ros/src/mock_pendulum_hardware.cpp over the reals. Pi,
 the trigonometric functions and tanh are parameters, and so is every draw of the noise generator.
 */
module MockPlant {
  import opened Bytes
  import opened RealMath

  datatype Maths = Maths(pi: real, sin: real -> real, cos: real -> real, tanh: real -> real)

  // ---- parameters ----------------------------------------------------------------------------------

  /** The hardware parameters as read, missing ones already replaced by their fallback. */
  datatype Parameters = Parameters(
    j1: real, m2: real, l2: real, armLength: real, b1: real, b2: real, c2: real, g: real, j2: real,
    motorLimit: real, maxVelocity: real, maxAccel: real, maxTorque: real, stepLoss: bool, restitution: real,
    stepsPerRev: real, countsPerRev: real, encoderNoise: real, encoderOffset: real,
    velocityFromEncoder: bool, reportOffset: real, filterAlpha: real, motorVelNoise: real,
    pendulumNoise: real, motorNoise: real, randomization: real, initialQ2: real, initialJitter: real,
    simSpeed: real, maxSubstep: real, maxSubsteps: real, maxCycleDt: real)

  /** The parameters after on_init has made them safe; j2Com is the inertia about the centre of mass. */
  datatype Settings = Settings(nominal: Parameters, j2Com: real, maxSubsteps: nat)

  function Tamed(p: Parameters): (s: Settings) {
    var j2Com := p.j2 - p.m2 * p.l2 * p.l2;
    Settings(
      p.(motorLimit := Abs(p.motorLimit), maxVelocity := Abs(p.maxVelocity), maxAccel := Abs(p.maxAccel),
         maxTorque := Abs(p.maxTorque), restitution := Clamp(p.restitution, 0.0, 0.9),
         encoderNoise := Abs(p.encoderNoise), filterAlpha := Clamp(p.filterAlpha, 0.01, 1.0),
         motorVelNoise := Abs(p.motorVelNoise), pendulumNoise := Abs(p.pendulumNoise),
         motorNoise := Abs(p.motorNoise), randomization := Abs(p.randomization),
         initialJitter := Abs(p.initialJitter),
         simSpeed := if p.simSpeed > 0.0 then p.simSpeed else 1.0,
         maxSubstep := if p.maxSubstep < 0.000001 then 0.000001 else p.maxSubstep,
         maxCycleDt := if p.maxCycleDt < 0.0001 then 0.0001 else p.maxCycleDt),
      if j2Com <= 0.0 then p.j2 else j2Com,
      if p.maxSubsteps < 1.0 then 1 else p.maxSubsteps.Floor)
  }

  predicate SettingsOk(s: Settings) {
    && s.nominal.motorLimit >= 0.0 && s.nominal.maxVelocity >= 0.0 && s.nominal.maxAccel >= 0.0
    && s.nominal.maxTorque >= 0.0 && 0.0 <= s.nominal.restitution <= 0.9
    && s.nominal.simSpeed > 0.0 && s.nominal.maxSubstep > 0.0 && s.nominal.maxCycleDt > 0.0
    && s.maxSubsteps >= 1
  }

  /** Whatever the parameters, on_init leaves settings the plant can run on; the hinge inertia is the
      declared one whenever that leaves a positive inertia about the centre of mass, and a positive
      declared inertia is never lost. */
  lemma TamedIsOk(p: Parameters)
    ensures SettingsOk(Tamed(p))
    ensures p.j2 > p.m2 * p.l2 * p.l2 ==> Tamed(p).j2Com + p.m2 * p.l2 * p.l2 == p.j2
    ensures p.j2 > 0.0 ==> Tamed(p).j2Com > 0.0
  {}

  /** Parameters that are usable as they are. */
  predicate Usable(p: Parameters) {
    && p.motorLimit >= 0.0 && p.maxVelocity >= 0.0 && p.maxAccel >= 0.0 && p.maxTorque >= 0.0
    && 0.0 <= p.restitution <= 0.9 && p.encoderNoise >= 0.0 && 0.01 <= p.filterAlpha <= 1.0
    && p.motorVelNoise >= 0.0 && p.pendulumNoise >= 0.0 && p.motorNoise >= 0.0 && p.randomization >= 0.0
    && p.initialJitter >= 0.0 && p.simSpeed > 0.0 && p.maxSubstep >= 0.000001 && p.maxCycleDt >= 0.0001
  }

  /** They are kept as they are; of the number of substeps the whole part counts, at least one. */
  lemma UsableParametersAreKept(p: Parameters)
    requires Usable(p)
    ensures Tamed(p).nominal == p
    ensures var n := Tamed(p).maxSubsteps;
            if p.maxSubsteps < 1.0 then n == 1 else n as real <= p.maxSubsteps < n as real + 1.0
  {}

  // ---- the plant -----------------------------------------------------------------------------------

  /** The physical parameters of one activation. */
  datatype Body = Body(j1: real, m2: real, l2: real, b1: real, b2: real, c2: real, j2Pivot: real)

  datatype Plant = Plant(
    q1: real, q1Dot: real, q2: real, q2Dot: real, q2DdotPrev: real, simTime: real,
    atLimit: bool, stepLoss: bool)

  /** The draws of the noise generator in one substep. */
  datatype Noise = Noise(motor: real, pendulum: real)

  /** The arm stays between its stops and below its top speed; the pendulum angle is wrapped. */
  predicate Inv(m: Maths, s: Settings, p: Plant) {
    && -s.nominal.motorLimit <= p.q1 <= s.nominal.motorLimit
    && -s.nominal.maxVelocity <= p.q1Dot <= s.nominal.maxVelocity
    && -m.pi <= p.q2 <= m.pi
  }

  /** The inertia the motor accelerates. */
  function MotorInertia(m: Maths, s: Settings, b: Body, q2: real): real {
    b.j1 + b.m2 * s.nominal.armLength * s.nominal.armLength + b.m2 * b.l2 * b.l2 * m.sin(q2) * m.sin(q2)
  }

  /** No equation of the plant divides by zero. */
  ghost predicate BodyOk(m: Maths, s: Settings, b: Body) {
    b.j2Pivot != 0.0 && forall q2 :: MotorInertia(m, s, b, q2) != 0.0
  }

  /** Positive inertias see to that. */
  lemma PositiveInertiasAreOk(m: Maths, s: Settings, b: Body)
    requires b.j1 > 0.0 && b.m2 >= 0.0 && b.j2Pivot > 0.0
    ensures BodyOk(m, s, b)
  {
    forall q2 ensures MotorInertia(m, s, b, q2) != 0.0 {
      WeightedSquare(b.m2, s.nominal.armLength);
      WeightedSquare(b.m2, b.l2);
      WeightedSquare(b.m2 * b.l2 * b.l2, m.sin(q2));
    }
  }

  lemma WeightedSquare(w: real, x: real)
    requires w >= 0.0
    ensures w * x * x >= 0.0
  {
    if x >= 0.0 {
      NotNegative(w, x);
      NotNegative(w * x, x);
    } else {
      NotNegative(w, -x);
      NotNegative(w * -x, -x);
      assert w * -x * -x == w * x * x;
    }
  }

  function Reaction(m: Maths, s: Settings, b: Body, p: Plant): real {
    b.m2 * s.nominal.armLength * b.l2 * m.cos(p.q2) * p.q2DdotPrev + b.b1 * p.q1Dot
  }

  /** The torque an arm acceleration asks of the motor. */
  function TorqueDemand(m: Maths, s: Settings, b: Body, p: Plant, accel: real): real {
    MotorInertia(m, s, b, p.q2) * accel + Reaction(m, s, b, p)
  }

  /** It accelerates the arm's own inertia and the pendulum's mass at its distance from the arm's axis, and
      carries the pendulum's reaction and the friction of the bearing. */
  lemma DemandedTorque(m: Maths, s: Settings, b: Body, p: Plant, accel: real)
    ensures var arm, reach := s.nominal.armLength, b.l2 * m.sin(p.q2);
            TorqueDemand(m, s, b, p, accel)
            == b.j1 * accel + b.m2 * (arm * arm + reach * reach) * accel
               + b.m2 * arm * (b.l2 * m.cos(p.q2)) * p.q2DdotPrev + b.b1 * p.q1Dot
  {
    var arm, sn, l2 := s.nominal.armLength, m.sin(p.q2), b.l2;
    InertiaAtReach(b.j1, b.m2, arm, l2, sn);
    var x := b.m2 * (arm * arm + l2 * sn * (l2 * sn));
    assert MotorInertia(m, s, b, p.q2) == b.j1 + x;
    assert (b.j1 + x) * accel == b.j1 * accel + x * accel;
    assert b.m2 * arm * l2 * m.cos(p.q2) == b.m2 * arm * (l2 * m.cos(p.q2));
  }

  lemma InertiaAtReach(j: real, w: real, arm: real, l: real, sn: real)
    ensures j + w * arm * arm + w * l * l * sn * sn == j + w * (arm * arm + l * sn * (l * sn))
  {
    assert l * sn * (l * sn) == l * l * sn * sn;
    assert w * (arm * arm + l * l * sn * sn) == w * (arm * arm) + w * (l * l * sn * sn);
    assert w * (arm * arm) == w * arm * arm && w * (l * l * sn * sn) == w * l * l * sn * sn;
  }

  function ModelsStepLoss(s: Settings): bool { s.nominal.stepLoss && s.nominal.maxTorque > 0.0 }

  function LosesSteps(m: Maths, s: Settings, b: Body, p: Plant, accel: real): bool {
    ModelsStepLoss(s) && Abs(TorqueDemand(m, s, b, p, accel)) > s.nominal.maxTorque
  }

  /** The acceleration the motor can follow. */
  function Feasible(m: Maths, s: Settings, b: Body, p: Plant, accel: real): real
    requires BodyOk(m, s, b)
  {
    if !LosesSteps(m, s, b, p, accel) then accel
    else
      var available := if TorqueDemand(m, s, b, p, accel) < 0.0 then -s.nominal.maxTorque else s.nominal.maxTorque;
      (available - Reaction(m, s, b, p)) / MotorInertia(m, s, b, p.q2)
  }

  lemma TorqueIsFeasible(m: Maths, s: Settings, b: Body, p: Plant, accel: real)
    requires BodyOk(m, s, b) && ModelsStepLoss(s)
    ensures var demand := TorqueDemand(m, s, b, p, accel);
            var torque := TorqueDemand(m, s, b, p, Feasible(m, s, b, p, accel));
            && Abs(torque) <= s.nominal.maxTorque
            && (LosesSteps(m, s, b, p, accel) ==>
                  torque == if demand < 0.0 then -s.nominal.maxTorque else s.nominal.maxTorque)
  {
    hide MotorInertia, Reaction;
    assert MotorInertia(m, s, b, p.q2) != 0.0;
    if LosesSteps(m, s, b, p, accel) {
      var available := if TorqueDemand(m, s, b, p, accel) < 0.0 then -s.nominal.maxTorque else s.nominal.maxTorque;
      QuotientTimes(available - Reaction(m, s, b, p), MotorInertia(m, s, b, p.q2));
    }
  }

  lemma QuotientTimes(x: real, y: real)
    requires y != 0.0
    ensures y * (x / y) == x
  {}

  /** wrap_pi */
  function WrapPi(m: Maths, a: real): (r: real)
    requires m.pi > 0.0
    ensures -m.pi <= r <= m.pi
  {
    RemainderIsSmall(a, m.pi);
    Remainder(a, 2.0 * m.pi)
  }

  function PendulumAccel(m: Maths, s: Settings, b: Body, q2: real, q2Dot: real, q1Dot: real, q1Ddot: real): real
    requires BodyOk(m, s, b)
  {
    var sn, cs := m.sin(q2), m.cos(q2);
    (b.m2 * s.nominal.g * b.l2 * sn
     + b.m2 * s.nominal.armLength * b.l2 * cs * q1Ddot
     + b.m2 * b.l2 * b.l2 * sn * cs * q1Dot * q1Dot
     + -b.b2 * q2Dot
     + -b.c2 * m.tanh(q2Dot / 0.001)) / b.j2Pivot
  }

  /** The acceleration the motor is asked for: no value counts as 0, limited, with timing jitter. */
  function Commanded(s: Settings, command: Option<real>, n: Noise): real {
    var a := if command.Some? then command.value else 0.0;
    Clamp(a, -s.nominal.maxAccel, s.nominal.maxAccel) + s.nominal.motorNoise * n.motor
  }

  /** Velocity and position of the arm after h, before and after the stops. */
  datatype Arm = Arm(position: real, velocity: real, atLimit: bool)

  function Bounced(s: Settings, v: real): real { -s.nominal.restitution * v }

  /** An Euler step. */
  function Moved(x: real, rate: real, h: real): real { x + rate * h }

  function Stopped(s: Settings, q1: real, v: real, h: real): Arm {
    var limit, p := s.nominal.motorLimit, Moved(q1, v, h);
    if p > limit then Arm(limit, Bounced(s, v), true)
    else if p < -limit then Arm(-limit, Bounced(s, v), true)
    else Arm(p, v, false)
  }

  function NewArm(s: Settings, q1: real, v: real, accel: real, h: real): Arm {
    Stopped(s, q1, Clamp(Moved(v, accel, h), -s.nominal.maxVelocity, s.nominal.maxVelocity), h)
  }

  /** The arm acceleration the pendulum feels. */
  function Realised(before: real, after: real, h: real): real
    requires h > 0.0
  {
    (after - before) / h
  }

  function Disturbed(s: Settings, a2: real, n: Noise): real { a2 + s.nominal.pendulumNoise * n.pendulum }

  /** integrate */
  function Integrated(m: Maths, s: Settings, b: Body, p: Plant, command: Option<real>, h: real, n: Noise): Plant
    requires m.pi > 0.0 && BodyOk(m, s, b) && h > 0.0
  {
    var a := Commanded(s, command, n);
    var arm := NewArm(s, p.q1, p.q1Dot, Feasible(m, s, b, p, a), h);
    var a2 := Disturbed(s, PendulumAccel(m, s, b, p.q2, p.q2Dot, p.q1Dot, Realised(p.q1Dot, arm.velocity, h)), n);
    var q2Dot := Moved(p.q2Dot, a2, h);
    Plant(arm.position, arm.velocity, WrapPi(m, Moved(p.q2, q2Dot, h)), q2Dot, a2, p.simTime + h,
          arm.atLimit, LosesSteps(m, s, b, p, a))
  }

  /** With step loss modelled a substep that ends short of top speed and of the stops has accelerated the
      arm by no more than the holding torque can, by exactly that torque in the direction asked for when it
      reports lost steps, and as commanded when it does not. */
  lemma SubstepsRespectTheTorque(
      m: Maths, s: Settings, b: Body, p: Plant, command: Option<real>, h: real, n: Noise)
    requires m.pi > 0.0 && BodyOk(m, s, b) && h > 0.0 && ModelsStepLoss(s)
    requires var p' := Integrated(m, s, b, p, command, h, n); !p'.atLimit && Abs(p'.q1Dot) < s.nominal.maxVelocity
    ensures var p' := Integrated(m, s, b, p, command, h, n);
            var accel := Realised(p.q1Dot, p'.q1Dot, h);
            var demand := TorqueDemand(m, s, b, p, Commanded(s, command, n));
            var torque := TorqueDemand(m, s, b, p, accel);
            && Abs(torque) <= s.nominal.maxTorque
            && (p'.stepLoss ==> torque == if demand < 0.0 then -s.nominal.maxTorque else s.nominal.maxTorque)
            && (!p'.stepLoss ==> accel == Commanded(s, command, n))
  {
    hide TorqueDemand, PendulumAccel, WrapPi, Commanded, Bounced, MotorInertia, Disturbed, Reaction;
    var p' := Integrated(m, s, b, p, command, h, n);
    var a := Commanded(s, command, n);
    TorqueIsFeasible(m, s, b, p, a);
    var x := Feasible(m, s, b, p, a);
    assert p'.q1Dot == Moved(p.q1Dot, x, h);
    QuotientTimes(x * h, h);
    assert Realised(p.q1Dot, p'.q1Dot, h) == x;
  }

  /** How an arm at q1 with velocity v0 moves under an acceleration: its velocity stays within the top speed,
      and it moves on at the new velocity, up to the stop it reaches, where it turns round with what
      restitution leaves of it. */
  predicate ArmLaw(s: Settings, q1: real, v0: real, accel: real, h: real, arm: Arm) {
    var limit, v := s.nominal.motorLimit, Clamp(v0 + accel * h, -s.nominal.maxVelocity, s.nominal.maxVelocity);
    var x := q1 + v * h;
    && (arm.atLimit <==> x > limit || x < -limit)
    && (!arm.atLimit ==> arm.position == x && arm.velocity == v)
    && (arm.atLimit ==>
          arm.position == (if x > limit then limit else -limit) && arm.velocity == -s.nominal.restitution * v)
  }

  lemma NewArmObeysItsLaw(s: Settings, q1: real, v0: real, accel: real, h: real)
    requires s.nominal.motorLimit >= 0.0
    ensures ArmLaw(s, q1, v0, accel, h, NewArm(s, q1, v0, accel, h))
  {
    var v := Clamp(Moved(v0, accel, h), -s.nominal.maxVelocity, s.nominal.maxVelocity);
    assert Moved(v0, accel, h) == v0 + accel * h && Moved(q1, v, h) == q1 + v * h;
    assert Bounced(s, v) == -s.nominal.restitution * v;
    hide Moved, Bounced, Clamp;
  }

  lemma CommandedIs(s: Settings, command: Option<real>, n: Noise)
    ensures var asked := match command case Some(a) => a case None => 0.0;
            Commanded(s, command, n)
            == Clamp(asked, -s.nominal.maxAccel, s.nominal.maxAccel) + s.nominal.motorNoise * n.motor
  {}

  /** What a substep does to the arm when no steps are lost: it is accelerated as commanded, up to the
      acceleration limit, with the motor's jitter. */
  lemma ArmFollowsTheCommand(m: Maths, s: Settings, b: Body, p: Plant, command: Option<real>, h: real, n: Noise)
    requires m.pi > 0.0 && BodyOk(m, s, b) && h > 0.0 && SettingsOk(s)
    requires !Integrated(m, s, b, p, command, h, n).stepLoss
    ensures var p' := Integrated(m, s, b, p, command, h, n);
            var asked := match command case Some(a) => a case None => 0.0;
            var accel := Clamp(asked, -s.nominal.maxAccel, s.nominal.maxAccel) + s.nominal.motorNoise * n.motor;
            ArmLaw(s, p.q1, p.q1Dot, accel, h, Arm(p'.q1, p'.q1Dot, p'.atLimit))
  {
    hide WrapPi, PendulumAccel, LosesSteps, Realised, Disturbed, NewArm, ArmLaw, Moved;
    var p', a := Integrated(m, s, b, p, command, h, n), Commanded(s, command, n);
    NewArmObeysItsLaw(s, p.q1, p.q1Dot, a, h);
    CommandedIs(s, command, n);
    assert Feasible(m, s, b, p, a) == a;
    hide Commanded;
    assert Arm(p'.q1, p'.q1Dot, p'.atLimit) == NewArm(s, p.q1, p.q1Dot, a, h);
  }

  /** Steps are lost exactly when that is modelled, with a holding torque, and the commanded acceleration
      asks for more than it. */
  lemma StepsAreLostExactly(m: Maths, s: Settings, b: Body, p: Plant, command: Option<real>, h: real, n: Noise)
    requires m.pi > 0.0 && BodyOk(m, s, b) && h > 0.0
    ensures var demand := TorqueDemand(m, s, b, p, Commanded(s, command, n));
            Integrated(m, s, b, p, command, h, n).stepLoss
            <==> s.nominal.stepLoss && s.nominal.maxTorque > 0.0
                 && (demand > s.nominal.maxTorque || demand < -s.nominal.maxTorque)
  {
    hide TorqueDemand, PendulumAccel, WrapPi, Commanded, NewArm, Disturbed, Realised, Feasible;
  }

  lemma MovesAtMost(q1: real, v: real, max: real, h: real)
    requires -max <= v <= max && h > 0.0
    ensures Abs(Moved(q1, v, h) - q1) <= max * h
  {
    NotNegative(max - v, h);
    NotNegative(v + max, h);
    assert (max - v) * h == max * h - v * h;
    assert (v + max) * h == v * h + max * h;
  }

  lemma BouncesSlower(s: Settings, v: real, max: real)
    requires SettingsOk(s) && -max <= v <= max
    ensures Abs(Bounced(s, v)) <= max
  {
    var r, x := s.nominal.restitution, Abs(v);
    AbsOfProduct(v, r);
    NotNegative(1.0 - r, x);
    assert (1.0 - r) * x == x - x * r;
    assert Bounced(s, v) == -(v * r);
  }

  lemma StopsHold(s: Settings, q1: real, v: real, h: real)
    requires SettingsOk(s) && h > 0.0 && -s.nominal.motorLimit <= q1 <= s.nominal.motorLimit
    requires -s.nominal.maxVelocity <= v <= s.nominal.maxVelocity
    ensures var arm := Stopped(s, q1, v, h);
            && -s.nominal.motorLimit <= arm.position <= s.nominal.motorLimit
            && -s.nominal.maxVelocity <= arm.velocity <= s.nominal.maxVelocity
            && Abs(arm.position - q1) <= s.nominal.maxVelocity * h
  {
    hide Moved, Bounced;
    MovesAtMost(q1, v, s.nominal.maxVelocity, h);
    BouncesSlower(s, v, s.nominal.maxVelocity);
  }

  lemma ArmStaysInside(s: Settings, q1: real, v: real, accel: real, h: real)
    requires SettingsOk(s) && h > 0.0 && -s.nominal.motorLimit <= q1 <= s.nominal.motorLimit
    ensures var arm := NewArm(s, q1, v, accel, h);
            && -s.nominal.motorLimit <= arm.position <= s.nominal.motorLimit
            && -s.nominal.maxVelocity <= arm.velocity <= s.nominal.maxVelocity
            && Abs(arm.position - q1) <= s.nominal.maxVelocity * h
  {
    hide Stopped;
    var max := s.nominal.maxVelocity;
    StopsHold(s, q1, Clamp(Moved(v, accel, h), -max, max), h);
  }

  /** A substep keeps the plant inside its bounds and moves the arm no further than its top speed
      allows. */
  lemma IntegrateKeepsInv(m: Maths, s: Settings, b: Body, p: Plant, command: Option<real>, h: real, n: Noise)
    requires m.pi > 0.0 && SettingsOk(s) && BodyOk(m, s, b) && h > 0.0 && Inv(m, s, p)
    ensures var p' := Integrated(m, s, b, p, command, h, n);
            && Inv(m, s, p') && p'.simTime == p.simTime + h
            && Abs(p'.q1 - p.q1) <= s.nominal.maxVelocity * h
  {
    hide NewArm, PendulumAccel, Feasible, LosesSteps, WrapPi, Commanded, Moved, Realised, Disturbed;
    ArmStaysInside(s, p.q1, p.q1Dot, Feasible(m, s, b, p, Commanded(s, command, n)), h);
  }

  // ---- read ----------------------------------------------------------------------------------------

  /** The plant after n substeps. */
  function Substeps(m: Maths, s: Settings, b: Body, p: Plant, command: Option<real>, h: real,
                    noise: nat -> Noise, n: nat): Plant
    requires m.pi > 0.0 && BodyOk(m, s, b) && h > 0.0
  {
    if n == 0 then p
    else Integrated(m, s, b, Substeps(m, s, b, p, command, h, noise, n - 1), command, h, noise(n - 1))
  }

  lemma OneMoreStep(x: real, n: nat)
    requires n >= 1
    ensures x * n as real == x * (n - 1) as real + x
  {
    assert n as real == (n - 1) as real + 1.0;
  }

  lemma {:induction false} SubstepsKeepInv(m: Maths, s: Settings, b: Body, p: Plant, command: Option<real>, h: real,
                                           noise: nat -> Noise, n: nat)
    requires m.pi > 0.0 && SettingsOk(s) && BodyOk(m, s, b) && h > 0.0 && Inv(m, s, p)
    ensures var p' := Substeps(m, s, b, p, command, h, noise, n);
            && Inv(m, s, p') && p'.simTime == p.simTime + h * n as real
            && Abs(p'.q1 - p.q1) <= s.nominal.maxVelocity * h * n as real
  {
    hide Integrated, Inv;
    var reach := s.nominal.maxVelocity * h;
    if n > 0 {
      var before := Substeps(m, s, b, p, command, h, noise, n - 1);
      SubstepsKeepInv(m, s, b, p, command, h, noise, n - 1);
      IntegrateKeepsInv(m, s, b, before, command, h, noise(n - 1));
      OneMoreStep(h, n);
      OneMoreStep(reach, n);
    }
  }

  function SimulatedTime(s: Settings, dt: real): real {
    MinReal(dt, s.nominal.maxCycleDt) * s.nominal.simSpeed
  }

  /** How many substeps a read takes. */
  function Steps(s: Settings, time: real): (n: nat)
    requires SettingsOk(s)
    ensures 1 <= n <= s.maxSubsteps
  {
    var n := Ceil(time / s.nominal.maxSubstep);
    if n < 1 then 1 else if n > s.maxSubsteps then s.maxSubsteps else n
  }

  lemma TimeIsPositive(s: Settings, dt: real)
    requires SettingsOk(s) && dt > 0.0
    ensures SimulatedTime(s, dt) > 0.0
  {
    Positive(MinReal(dt, s.nominal.maxCycleDt), s.nominal.simSpeed);
  }

  function StepLength(s: Settings, dt: real): (h: real)
    requires SettingsOk(s) && dt > 0.0
    ensures h > 0.0
  {
    TimeIsPositive(s, dt);
    SimulatedTime(s, dt) / Steps(s, SimulatedTime(s, dt)) as real
  }

  /** No substep is longer than max_substep unless the cap on their number binds, and there are no more of
      them than that takes. */
  lemma StepsAreShort(s: Settings, dt: real)
    requires SettingsOk(s) && dt > 0.0
    ensures StepLength(s, dt) <= s.nominal.maxSubstep || Steps(s, SimulatedTime(s, dt)) == s.maxSubsteps
    ensures StepLength(s, dt) * Steps(s, SimulatedTime(s, dt)) as real == SimulatedTime(s, dt)
    ensures var n := Steps(s, SimulatedTime(s, dt));
            n == 1 || (n - 1) as real * s.nominal.maxSubstep < SimulatedTime(s, dt)
  {
    hide SimulatedTime;
    TimeIsPositive(s, dt);
    FewerAreTooFew(s, SimulatedTime(s, dt));
    var t, x := SimulatedTime(s, dt), s.nominal.maxSubstep;
    var n := Steps(s, t);
    QuotientTimes(t, n as real);
    if n != s.maxSubsteps {
      var q := t / x;
      assert n as real >= q;
      NotNegative(n as real - q, x);
      QuotientTimes(t, x);
      assert (n as real - q) * x == n as real * x - q * x;
      QuotientAtMost(t, n as real, x);
    }
  }

  lemma FewerAreTooFew(s: Settings, time: real)
    requires SettingsOk(s)
    ensures var n := Steps(s, time); n == 1 || (n - 1) as real * s.nominal.maxSubstep < time
  {
    var x, n := s.nominal.maxSubstep, Steps(s, time);
    var q := time / x;
    if n > 1 {
      assert (n - 1) as real < q;
      Positive(q - (n - 1) as real, x);
      QuotientTimes(time, x);
      assert (q - (n - 1) as real) * x == q * x - (n - 1) as real * x;
    }
  }

  /** The time a read simulates: what has passed, but at most max_cycle_dt, times the simulation's speed. */
  lemma SimulatedTimeIs(s: Settings, dt: real)
    ensures dt <= s.nominal.maxCycleDt ==> SimulatedTime(s, dt) == dt * s.nominal.simSpeed
    ensures dt >= s.nominal.maxCycleDt ==> SimulatedTime(s, dt) == s.nominal.maxCycleDt * s.nominal.simSpeed
  {}

  /** The plant after read's substep loop. */
  function AfterRead(m: Maths, s: Settings, b: Body, p: Plant, command: Option<real>, dt: real,
                     noise: nat -> Noise): Plant
    requires m.pi > 0.0 && SettingsOk(s) && BodyOk(m, s, b)
  {
    if dt <= 0.0 then p
    else Substeps(m, s, b, p, command, StepLength(s, dt), noise, Steps(s, SimulatedTime(s, dt)))
  }

  /** One read advances simulated time by exactly min(dt, max_cycle_dt) * sim_speed, moves the arm at
      most at top speed for that time, and keeps every bound. */
  lemma ReadAdvances(m: Maths, s: Settings, b: Body, p: Plant, command: Option<real>, dt: real, noise: nat -> Noise)
    requires m.pi > 0.0 && SettingsOk(s) && BodyOk(m, s, b) && Inv(m, s, p)
    ensures var p' := AfterRead(m, s, b, p, command, dt, noise);
            var time := if dt > 0.0 then SimulatedTime(s, dt) else 0.0;
            && Inv(m, s, p') && p'.simTime == p.simTime + time
            && Abs(p'.q1 - p.q1) <= s.nominal.maxVelocity * time
            && (0.0 < dt <= s.nominal.maxCycleDt ==> p'.simTime == p.simTime + dt * s.nominal.simSpeed)
            && (dt >= s.nominal.maxCycleDt ==> p'.simTime == p.simTime + s.nominal.maxCycleDt * s.nominal.simSpeed)
  {
    hide Substeps, Inv, SimulatedTime, Steps, StepLength;
    SimulatedTimeIs(s, dt);
    if dt > 0.0 {
      var h, n := StepLength(s, dt), Steps(s, SimulatedTime(s, dt));
      SubstepsKeepInv(m, s, b, p, command, h, noise, n);
      StepsAreShort(s, dt);
      assert s.nominal.maxVelocity * h * n as real == s.nominal.maxVelocity * (h * n as real);
    } else {
      NoTime(s.nominal.maxVelocity);
    }
  }

  lemma NoTime(v: real)
    ensures v * 0.0 == 0.0
  {}

  // ---- runs of reads ---------------------------------------------------------------------------------

  datatype Cycle = Cycle(command: Option<real>, dt: real, noise: nat -> Noise)

  function AfterCycles(m: Maths, s: Settings, b: Body, p: Plant, cs: seq<Cycle>): Plant
    requires m.pi > 0.0 && SettingsOk(s) && BodyOk(m, s, b)
  {
    if cs == [] then p
    else
      var c := cs[|cs| - 1];
      AfterRead(m, s, b, AfterCycles(m, s, b, p, cs[..|cs| - 1]), c.command, c.dt, c.noise)
  }

  function TotalTime(s: Settings, cs: seq<Cycle>): real {
    if cs == [] then 0.0
    else TotalTime(s, cs[..|cs| - 1]) + if cs[|cs| - 1].dt > 0.0 then SimulatedTime(s, cs[|cs| - 1].dt) else 0.0
  }

  /** In every run the plant stays inside its bounds, simulated time is the sum of the cycles' times,
      and the arm is never further from where it started than top speed allows in that time. */
  lemma {:induction false} RunsStayInside(m: Maths, s: Settings, b: Body, p: Plant, cs: seq<Cycle>)
    requires m.pi > 0.0 && SettingsOk(s) && BodyOk(m, s, b) && Inv(m, s, p)
    ensures var p' := AfterCycles(m, s, b, p, cs);
            && Inv(m, s, p') && p'.simTime == p.simTime + TotalTime(s, cs)
            && Abs(p'.q1 - p.q1) <= s.nominal.maxVelocity * TotalTime(s, cs)
  {
    hide Inv, AfterRead, SimulatedTime;
    if cs == [] {
      NoTime(s.nominal.maxVelocity);
    } else {
      var init, c := cs[..|cs| - 1], cs[|cs| - 1];
      RunsStayInside(m, s, b, p, init);
      ReadAdvances(m, s, b, AfterCycles(m, s, b, p, init), c.command, c.dt, c.noise);
      var t, u := TotalTime(s, init), if c.dt > 0.0 then SimulatedTime(s, c.dt) else 0.0;
      assert s.nominal.maxVelocity * (t + u) == s.nominal.maxVelocity * t + s.nominal.maxVelocity * u;
    }
  }

  // ---- what the sensors report -------------------------------------------------------------------------

  /** The measurement state and the four published values. */
  datatype Sensors = Sensors(
    havePrev: bool, q2Prev: real, q2DotFilt: real,
    motorPosition: real, motorVelocity: real, pendulumPosition: real, pendulumVelocity: real)

  /** To the nearest multiple of the unit. */
  function Quantized(x: real, unit: real): real
    requires unit > 0.0
  {
    LRound(x / unit) as real * unit
  }

  lemma QuantizedIsNear(x: real, unit: real)
    requires unit > 0.0
    ensures -0.5 * unit <= Quantized(x, unit) - x <= 0.5 * unit
  {
    var q := x / unit;
    var d := LRound(q) as real - q;
    QuotientTimes(x, unit);
    NotNegative(0.5 - d, unit);
    NotNegative(d + 0.5, unit);
    assert (0.5 - d) * unit == 0.5 * unit - d * unit;
    assert (d + 0.5) * unit == d * unit + 0.5 * unit;
    assert d * unit == LRound(q) as real * unit - q * unit;
  }

  predicate SensorsOk(m: Maths, s: Settings) {
    m.pi > 0.0 && s.nominal.stepsPerRev > 0.0 && s.nominal.countsPerRev > 0.0
  }

  function Unit(m: Maths, perRev: real): (u: real)
    requires m.pi > 0.0 && perRev > 0.0
    ensures u > 0.0
  {
    2.0 * m.pi / perRev
  }

  lemma HalfUnit(m: Maths, perRev: real)
    requires m.pi > 0.0 && perRev > 0.0
    ensures 0.5 * Unit(m, perRev) * perRev == m.pi
  {
    QuotientTimes(2.0 * m.pi, perRev);
  }

  /** The difference quotient across the wrap. */
  function RawVelocity(m: Maths, now: real, before: real, dt: real): real
    requires m.pi > 0.0 && dt > 0.0
  {
    WrapPi(m, now - before) / dt
  }

  function Blended(old_: real, new_: real, alpha: real): real { old_ + alpha * (new_ - old_) }

  /** publish_states */
  function Published(m: Maths, s: Settings, p: Plant, offset: real, r: Sensors, dt: real, encoderDraw: real,
                     velocityDraw: real): Sensors
    requires SensorsOk(m, s)
  {
    var noisy := p.q2 + offset + s.nominal.encoderNoise * encoderDraw;
    var q2 := WrapPi(m, Quantized(noisy, Unit(m, s.nominal.countsPerRev)));
    var filt := if s.nominal.velocityFromEncoder && r.havePrev && dt > 0.0
                then Blended(r.q2DotFilt, RawVelocity(m, q2, r.q2Prev, dt), s.nominal.filterAlpha)
                else p.q2Dot;
    Sensors(true, q2, filt,
            Quantized(p.q1, Unit(m, s.nominal.stepsPerRev)),
            p.q1Dot + s.nominal.motorVelNoise * velocityDraw,
            if s.nominal.reportOffset == 0.0 then q2 else WrapPi(m, q2 + s.nominal.reportOffset),
            filt)
  }

  /** The reported motor position is within half a microstep of the arm, so within half a microstep of
      the stops, and the reported pendulum angle is wrapped. */
  lemma ReportsAreNear(m: Maths, s: Settings, p: Plant, offset: real, r: Sensors, dt: real, encoderDraw: real,
                       velocityDraw: real)
    requires SensorsOk(m, s) && SettingsOk(s) && Inv(m, s, p)
    ensures var r' := Published(m, s, p, offset, r, dt, encoderDraw, velocityDraw);
            var half := 0.5 * Unit(m, s.nominal.stepsPerRev);
            && half * s.nominal.stepsPerRev == m.pi && -half <= r'.motorPosition - p.q1 <= half
            && -s.nominal.motorLimit - half <= r'.motorPosition <= s.nominal.motorLimit + half
            && -m.pi <= r'.pendulumPosition <= m.pi
  {
    hide Quantized, WrapPi, Unit;
    HalfUnit(m, s.nominal.stepsPerRev);
    QuantizedIsNear(p.q1, Unit(m, s.nominal.stepsPerRev));
  }

  /** Whole turns. */
  function Turns(m: Maths, k: int): real { 2.0 * m.pi * k as real }

  lemma TurnsAdd(m: Maths, j: int, k: int)
    ensures Turns(m, j + k) == Turns(m, j) + Turns(m, k)
  {}

  /** Where the encoder sees the pendulum. */
  function SeenAt(s: Settings, p: Plant, offset: real, encoderDraw: real): real {
    p.q2 + offset + s.nominal.encoderNoise * encoderDraw
  }

  /** The reported pendulum angle is, up to whole turns, within half an encoder count of where the encoder
      sees the pendulum, with the reporting offset added; the reported motor velocity is the arm's with its
      noise. */
  lemma PendulumReportIsNear(m: Maths, s: Settings, p: Plant, offset: real, r: Sensors, dt: real, encoderDraw: real,
                             velocityDraw: real)
    returns (turns: int)
    requires SensorsOk(m, s)
    ensures var r' := Published(m, s, p, offset, r, dt, encoderDraw, velocityDraw);
            var half := 0.5 * Unit(m, s.nominal.countsPerRev);
            var seen := SeenAt(s, p, offset, encoderDraw) + s.nominal.reportOffset;
            var off := r'.pendulumPosition - Turns(m, turns) - seen;
            && half * s.nominal.countsPerRev == m.pi && -half <= off <= half
            && r'.motorVelocity == p.q1Dot + s.nominal.motorVelNoise * velocityDraw
  {
    PendulumReported(m, s, p, offset, r, dt, encoderDraw, velocityDraw);
    hide Published, Quantized, Unit, WrapPi, Turns, SeenAt;
    HalfUnit(m, s.nominal.countsPerRev);
    var unit, noisy := Unit(m, s.nominal.countsPerRev), SeenAt(s, p, offset, encoderDraw);
    var q := Quantized(noisy, unit);
    QuantizedIsNear(noisy, unit);
    turns := WrapsByTurns(m, q);
    if s.nominal.reportOffset != 0.0 {
      var j := WrapsByTurns(m, WrapPi(m, q) + s.nominal.reportOffset);
      TurnsAdd(m, turns, j);
      turns := turns + j;
    }
  }

  lemma PendulumReported(m: Maths, s: Settings, p: Plant, offset: real, r: Sensors, dt: real, encoderDraw: real,
                         velocityDraw: real)
    requires SensorsOk(m, s)
    ensures var r' := Published(m, s, p, offset, r, dt, encoderDraw, velocityDraw);
            var q := WrapPi(m, Quantized(SeenAt(s, p, offset, encoderDraw), Unit(m, s.nominal.countsPerRev)));
            var off := s.nominal.reportOffset;
            && r'.pendulumPosition == (if off == 0.0 then q else WrapPi(m, q + off))
            && r'.motorVelocity == p.q1Dot + s.nominal.motorVelNoise * velocityDraw
  {
    hide Quantized, Unit, RawVelocity, Blended, WrapPi;
  }

  lemma WrapsByTurns(m: Maths, a: real) returns (k: int)
    requires m.pi > 0.0
    ensures WrapPi(m, a) == a + Turns(m, k)
  {
    k := RemainderIsWhole(a, 2.0 * m.pi);
  }

  /** The difference quotient is the shortest way between two angles, per second. */
  lemma QuotientIsTheShortestWay(m: Maths, now: real, before: real, dt: real) returns (turns: int)
    requires m.pi > 0.0 && dt > 0.0
    ensures RawVelocity(m, now, before, dt) * dt == now - before + Turns(m, turns)
    ensures -m.pi <= RawVelocity(m, now, before, dt) * dt <= m.pi
  {
    turns := WrapsByTurns(m, now - before);
    QuotientTimes(WrapPi(m, now - before), dt);
  }

  /** What publish_states is called with. */
  datatype Reading = Reading(plant: Plant, dt: real, encoderDraw: real, velocityDraw: real)

  /** The sensors after a row of publications. */
  function PublishedAll(m: Maths, s: Settings, offset: real, r: Sensors, xs: seq<Reading>): Sensors
    requires SensorsOk(m, s)
  {
    if xs == [] then r
    else
      var x := xs[|xs| - 1];
      Published(m, s, x.plant, offset, PublishedAll(m, s, offset, r, xs[..|xs| - 1]), x.dt, x.encoderDraw,
                x.velocityDraw)
  }

  /** The difference quotient of the k-th publication. */
  function QuotientAt(m: Maths, s: Settings, offset: real, r: Sensors, xs: seq<Reading>, k: nat): real
    requires SensorsOk(m, s) && k < |xs| && xs[k].dt > 0.0
  {
    var before, after_ := PublishedAll(m, s, offset, r, xs[..k]), PublishedAll(m, s, offset, r, xs[..k + 1]);
    RawVelocity(m, after_.q2Prev, before.q2Prev, xs[k].dt)
  }

  function Weighted(w: real, x: real): real { w * x }

  /** x scaled n times by 1 - alpha. */
  function Faded(alpha: real, x: real, n: nat): real {
    if n == 0 then x else Weighted(1.0 - alpha, Faded(alpha, x, n - 1))
  }

  /** Over any number of publications the reported pendulum velocity follows the difference quotients of
      the encoder: while they stay within `spread` of some velocity the report does, too, up to what its
      initial error has beyond that, which every publication scales by 1 - alpha. */
  lemma {:induction false} VelocityFollowsTheEncoder(
      m: Maths, s: Settings, offset: real, r: Sensors, xs: seq<Reading>, velocity: real, spread: real)
    requires SensorsOk(m, s) && 0.0 <= s.nominal.filterAlpha <= 1.0
    requires s.nominal.velocityFromEncoder && r.havePrev
    requires forall k :: 0 <= k < |xs| ==> xs[k].dt > 0.0
    requires forall k :: 0 <= k < |xs| ==> Abs(QuotientAt(m, s, offset, r, xs, k) - velocity) <= spread
    ensures var r' := PublishedAll(m, s, offset, r, xs);
            var beyond := Faded(s.nominal.filterAlpha, Abs(r.q2DotFilt - velocity) - spread, |xs|);
            && r'.havePrev && Abs(r'.q2DotFilt - velocity) <= spread + beyond
            && (xs != [] ==> r'.pendulumVelocity == r'.q2DotFilt)
  {
    hide Published, Faded, RawVelocity, Abs, Blended;
    var alpha, excess, n := s.nominal.filterAlpha, Abs(r.q2DotFilt - velocity) - spread, |xs| - 1;
    if xs == [] {
      NothingFaded(alpha, excess);
    } else {
      var init, x := xs[..n], xs[n];
      forall k | 0 <= k < n ensures QuotientAt(m, s, offset, r, init, k) == QuotientAt(m, s, offset, r, xs, k) {
        assert init[..k] == xs[..k] && init[..k + 1] == xs[..k + 1];
      }
      VelocityFollowsTheEncoder(m, s, offset, r, init, velocity, spread);
      assert xs[..n + 1] == xs;
      var before := PublishedAll(m, s, offset, r, init);
      OnePublication(m, s, offset, before, x);
      BlendFollows(before.q2DotFilt, QuotientAt(m, s, offset, r, xs, n), alpha, velocity, spread, excess, n);
    }
  }

  lemma OnePublication(m: Maths, s: Settings, offset: real, r: Sensors, x: Reading)
    requires SensorsOk(m, s) && s.nominal.velocityFromEncoder && r.havePrev && x.dt > 0.0
    ensures var r' := Published(m, s, x.plant, offset, r, x.dt, x.encoderDraw, x.velocityDraw);
            && r'.havePrev && r'.pendulumVelocity == r'.q2DotFilt
            && r'.q2DotFilt
               == Blended(r.q2DotFilt, RawVelocity(m, r'.q2Prev, r.q2Prev, x.dt), s.nominal.filterAlpha)
  {
    hide Quantized, WrapPi, Unit, RawVelocity, Blended;
  }

  lemma NothingFaded(alpha: real, x: real)
    ensures Faded(alpha, x, 0) == x
  {}

  lemma BlendFollows(x: real, y: real, alpha: real, v: real, spread: real, excess: real, n: nat)
    requires 0.0 <= alpha <= 1.0 && Abs(x - v) <= spread + Faded(alpha, excess, n) && Abs(y - v) <= spread
    ensures Abs(Blended(x, y, alpha) - v) <= spread + Faded(alpha, excess, n + 1)
  {
    hide Blended, Weighted;
    var beyond := Faded(alpha, excess, n);
    BlendError(x, y, alpha, v);
    BlendLimit(alpha, spread, beyond);
    WeightedIsBounded(1.0 - alpha, x - v, spread + beyond);
    WeightedIsBounded(alpha, y - v, spread);
  }

  lemma BlendError(x: real, y: real, alpha: real, v: real)
    ensures Blended(x, y, alpha) - v == Weighted(1.0 - alpha, x - v) + Weighted(alpha, y - v)
  {}

  lemma BlendLimit(alpha: real, spread: real, beyond: real)
    ensures Weighted(1.0 - alpha, spread + beyond) + Weighted(alpha, spread) == spread + Weighted(1.0 - alpha, beyond)
  {}

  lemma WeightedIsBounded(w: real, x: real, bound: real)
    requires w >= 0.0 && Abs(x) <= bound
    ensures Abs(Weighted(w, x)) <= Weighted(w, bound)
  {
    NotNegative(w, bound - x);
    NotNegative(w, bound + x);
    assert w * (bound - x) == w * bound - w * x;
    assert w * (bound + x) == w * bound + w * x;
  }
}
