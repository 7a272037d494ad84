/** The simulated hardware as an object, each method proved to do what the plant model says. */
module MockPendulumHardware {
  import opened Bytes
  import opened RealMath
  import opened MockPlant

  /** The draws of one activation. */
  datatype Draws = Draws(
    j1: real, j2: real, m2: real, l2: real, b1: real, b2: real, c2: real,
    encoder: real, q2: real, q2Dot: real, encoderNoise: real, velocityNoise: real)

  function Jittered(s: Settings, nominal: real, draw: real): real {
    if s.nominal.randomization > 0.0 then nominal * (1.0 + s.nominal.randomization * draw) else nominal
  }

  /** The physical parameters of an activation. */
  function Drawn(s: Settings, d: Draws): Body {
    var m2, l2 := Jittered(s, s.nominal.m2, d.m2), Jittered(s, s.nominal.l2, d.l2);
    Body(Jittered(s, s.nominal.j1, d.j1), m2, l2, Jittered(s, s.nominal.b1, d.b1), Jittered(s, s.nominal.b2, d.b2),
         Jittered(s, s.nominal.c2, d.c2), Jittered(s, s.j2Com, d.j2) + m2 * l2 * l2)
  }

  /** A drawn value is off the nominal one by its share of the randomization, so by at most that fraction for
      draws of at most one; the hinge inertia is that about the centre of mass moved by the drawn length. */
  lemma DrawnIsNear(s: Settings, d: Draws, nominal: real, draw: real)
    requires s.nominal.randomization >= 0.0
    ensures Jittered(s, nominal, draw) - nominal == nominal * (s.nominal.randomization * draw)
    ensures Abs(draw) <= 1.0 ==> Abs(Jittered(s, nominal, draw) - nominal) <= Abs(nominal) * s.nominal.randomization
    ensures s.nominal.randomization == 0.0 ==>
              Drawn(s, d) == Body(s.nominal.j1, s.nominal.m2, s.nominal.l2, s.nominal.b1, s.nominal.b2, s.nominal.c2,
                                  s.j2Com + s.nominal.m2 * s.nominal.l2 * s.nominal.l2)
    ensures var b := Drawn(s, d); b.j2Pivot - b.m2 * b.l2 * b.l2 == Jittered(s, s.j2Com, d.j2)
  {
    var r := s.nominal.randomization;
    var x := r * draw;
    assert nominal * (1.0 + x) == nominal + nominal * x;
    assert r == 0.0 ==> x == 0.0 && nominal * x == 0.0;
    if Abs(draw) <= 1.0 {
      AbsOfProduct(draw, r);
      assert draw * r == x;
      NotNegative(r, 1.0 - Abs(draw));
      assert r * (1.0 - Abs(draw)) == r - r * Abs(draw);
      Grows(nominal, x, r);
    }
  }

  /** The pendulum starts at its initial angle and at rest, off by the drawn jitter and half of it. */
  lemma StartsNear(m: Maths, s: Settings, d: Draws) returns (turns: int)
    requires m.pi > 0.0
    ensures var p := Started(m, s, d);
            && p.q2 - Turns(m, turns) - s.nominal.initialQ2 == s.nominal.initialJitter * d.q2
            && -m.pi <= p.q2 <= m.pi && 2.0 * p.q2Dot == s.nominal.initialJitter * d.q2Dot
  {
    turns := WrapsByTurns(m, StartAngle(s, d));
    hide WrapPi, Turns;
    assert s.nominal.initialJitter * 0.5 * d.q2Dot == 0.5 * (s.nominal.initialJitter * d.q2Dot);
  }

  lemma Grows(nominal: real, x: real, r: real)
    requires Abs(x) <= r
    ensures Abs(nominal * (1.0 + x) - nominal) <= Abs(nominal) * r
  {
    assert nominal * (1.0 + x) - nominal == nominal * x;
    NotNegative(Abs(nominal), r - Abs(x));
    assert Abs(nominal) * (r - Abs(x)) == Abs(nominal) * r - Abs(nominal) * Abs(x);
    if nominal >= 0.0 {
      AbsOfProduct(x, nominal);
    } else {
      AbsOfProduct(x, -nominal);
      assert x * -nominal == -(nominal * x);
    }
  }

  function StartAngle(s: Settings, d: Draws): real { s.nominal.initialQ2 + s.nominal.initialJitter * d.q2 }

  /** The plant on activation: the arm at rest at zero, the pendulum near its initial angle. */
  function Started(m: Maths, s: Settings, d: Draws): Plant
    requires m.pi > 0.0
  {
    Plant(0.0, 0.0, WrapPi(m, StartAngle(s, d)),
          s.nominal.initialJitter * 0.5 * d.q2Dot, 0.0, 0.0, false, false)
  }

  class Component {
    const m: Maths
    const settings: Settings
    var body: Body
    var encoderOffset: real
    var q1: real
    var q1Dot: real
    var q2: real
    var q2Dot: real
    var q2DdotPrev: real
    var simTime: real
    var atLimit: bool
    var stepLoss: bool
    /** hw_commands_[0]; None when it is not finite. */
    var command: Option<real>
    var sensors: Sensors

    function View(): Plant
      reads this
    {
      Plant(q1, q1Dot, q2, q2Dot, q2DdotPrev, simTime, atLimit, stepLoss)
    }

    ghost predicate Valid()
      reads this
    {
      SensorsOk(m, settings) && SettingsOk(settings) && BodyOk(m, settings, body) && Inv(m, settings, View())
    }

    /** on_init and the first on_activate. */
    constructor (m: Maths, p: Parameters, d: Draws)
      requires m.pi > 0.0 && p.stepsPerRev > 0.0 && p.countsPerRev > 0.0
      requires BodyOk(m, Tamed(p), Drawn(Tamed(p), d))
      ensures Valid() && settings == Tamed(p) && this.m == m
      ensures View() == Started(m, settings, d) && body == Drawn(settings, d) && command == Some(0.0)
    {
      TamedIsOk(p);
      var s := Tamed(p);
      var start := Started(m, s, d);
      this.m, settings := m, s;
      body := Drawn(s, d);
      encoderOffset := s.nominal.encoderOffset + 0.1 * s.nominal.randomization * d.encoder;
      q1, q1Dot, q2, q2Dot, q2DdotPrev := start.q1, start.q1Dot, start.q2, start.q2Dot, 0.0;
      simTime, atLimit, stepLoss, command := 0.0, false, false, Some(0.0);
      sensors := Sensors(false, 0.0, 0.0, 0.0, 0.0, 0.0, 0.0);
      new;
      PublishStates(1.0, d.encoderNoise, d.velocityNoise);
    }

    /** A later on_activate draws a new body and starts over. */
    method OnActivate(d: Draws)
      requires Valid() && BodyOk(m, settings, Drawn(settings, d))
      modifies this
      ensures Valid() && View() == Started(m, settings, d) && body == Drawn(settings, d) && command == Some(0.0)
      ensures q1 == 0.0 && q1Dot == 0.0 && simTime == 0.0 && !atLimit && !stepLoss
    {
      var start := Started(m, settings, d);
      body := Drawn(settings, d);
      encoderOffset := settings.nominal.encoderOffset + 0.1 * settings.nominal.randomization * d.encoder;
      q1, q1Dot, q2, q2Dot, q2DdotPrev := start.q1, start.q1Dot, start.q2, start.q2Dot, 0.0;
      simTime, atLimit, stepLoss, command := 0.0, false, false, Some(0.0);
      sensors := sensors.(havePrev := false, q2DotFilt := 0.0);
      PublishStates(1.0, d.encoderNoise, d.velocityNoise);
    }

    method PublishStates(dt: real, encoderDraw: real, velocityDraw: real)
      requires SensorsOk(m, settings)
      modifies `sensors
      ensures sensors == Published(m, settings, View(), encoderOffset, old(sensors), dt, encoderDraw, velocityDraw)
    {
      hide Quantized, WrapPi, Unit, RawVelocity, Blended;
      var s := settings.nominal;
      var motor := Quantized(q1, Unit(m, s.stepsPerRev));
      var measured := WrapPi(m, Quantized(q2 + encoderOffset + s.encoderNoise * encoderDraw, Unit(m, s.countsPerRev)));
      if s.velocityFromEncoder && sensors.havePrev && dt > 0.0 {
        var raw := RawVelocity(m, measured, sensors.q2Prev, dt);
        sensors := sensors.(q2DotFilt := Blended(sensors.q2DotFilt, raw, s.filterAlpha));
      } else {
        sensors := sensors.(q2DotFilt := q2Dot);
      }
      sensors := sensors.(q2Prev := measured, havePrev := true);
      sensors := sensors.(
        motorPosition := motor,
        motorVelocity := q1Dot + s.motorVelNoise * velocityDraw,
        pendulumPosition := if s.reportOffset == 0.0 then measured else WrapPi(m, measured + s.reportOffset),
        pendulumVelocity := sensors.q2DotFilt);
    }

    /** The step-loss part of integrate. */
    method LimitTorque(accel: real) returns (a: real)
      requires Valid()
      modifies `stepLoss
      ensures View() == old(View()).(stepLoss := LosesSteps(m, settings, body, old(View()), accel))
      ensures a == Feasible(m, settings, body, old(View()), accel)
    {
      hide MotorInertia, Reaction, TorqueDemand, Inv;
      var p := View();
      a := accel;
      stepLoss := false;
      if settings.nominal.stepLoss && settings.nominal.maxTorque > 0.0 {
        var inertia, react := MotorInertia(m, settings, body, q2), Reaction(m, settings, body, p);
        var required := TorqueDemand(m, settings, body, p, a);
        if Abs(required) > settings.nominal.maxTorque {
          var available := if required < 0.0 then -settings.nominal.maxTorque else settings.nominal.maxTorque;
          a := (available - react) / inertia;
          stepLoss := true;
        }
      }
    }

    /** One substep. */
    method Integrate(h: real, n: Noise)
      requires Valid() && h > 0.0
      modifies `q1, `q1Dot, `q2, `q2Dot, `q2DdotPrev, `simTime, `atLimit, `stepLoss
      ensures Valid() && View() == Integrated(m, settings, body, old(View()), command, h, n)
    {
      IntegrateKeepsInv(m, settings, body, View(), command, h, n);
      hide LosesSteps, Feasible, PendulumAccel, WrapPi, Stopped, Inv, Commanded, Moved, Realised, Disturbed;
      var a := LimitTorque(Commanded(settings, command, n));
      var max := settings.nominal.maxVelocity;
      var arm := Stopped(settings, q1, Clamp(Moved(q1Dot, a, h), -max, max), h);
      atLimit := arm.atLimit;
      var accel := PendulumAccel(m, settings, body, q2, q2Dot, q1Dot, Realised(q1Dot, arm.velocity, h));
      var a2 := Disturbed(settings, accel, n);
      q2Dot := Moved(q2Dot, a2, h);
      q2 := WrapPi(m, Moved(q2, q2Dot, h));
      q2DdotPrev := a2;
      q1Dot := arm.velocity;
      q1 := arm.position;
      simTime := simTime + h;
    }

    /** read: takes the offered command (None when there is none or it is NaN; Some(None) when it is
        infinite), runs the substeps and publishes. */
    method Read(offered: Option<Option<real>>, dt: real, noise: nat -> Noise, encoderDraw: real, velocityDraw: real)
      requires Valid()
      modifies this
      ensures Valid() && body == old(body) && encoderOffset == old(encoderOffset)
      ensures command == if offered.Some? then offered.value else old(command)
      ensures View() == AfterRead(m, settings, body, old(View()), command, dt, noise)
      ensures sensors == if dt <= 0.0 then old(sensors)
                         else Published(m, settings, View(), encoderOffset, old(sensors), SimulatedTime(settings, dt),
                                        encoderDraw, velocityDraw)
    {
      hide Integrated, Inv, SimulatedTime, Steps, StepLength, Published;
      if offered.Some? { command := offered.value; }
      if dt <= 0.0 { return; }
      ghost var p := View();
      var time := SimulatedTime(settings, dt);
      var n, h := Steps(settings, time), StepLength(settings, dt);
      for i: nat := 0 to n
        invariant Valid() && View() == Substeps(m, settings, body, p, command, h, noise, i)
        modifies `q1, `q1Dot, `q2, `q2Dot, `q2DdotPrev, `simTime, `atLimit, `stepLoss
      {
        Integrate(h, noise(i));
      }
      PublishStates(time, encoderDraw, velocityDraw);
    }
  }
}
