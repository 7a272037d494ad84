/**
 The inverted pendulum controller of
 demos/inverted_pendulum/inverted_pendulum_ros/src/inverted_pendulum_controller.cpp over the reals;
 pi and the cosine are parameters.
 */
module Controller {
  import opened Bytes
  import opened RealMath

  // ---- configuration -------------------------------------------------------------------------------

  /** The parameters as declared; catch_ramp_steps already as a C int. */
  datatype Parameters = Parameters(
    m2: real, l2: real, j2: real, g: real,
    kQ1: real, kQ1Vel: real, kQ2: real, kQ2Vel: real,
    kArm: real, kArmVel: real, swingAccelMax: real, armZone: real, swingStartVel: real,
    catchAngle: real, fallAngle: real, catchCmdFraction: real, catchRampSteps: int32, motorAccelMax: real)

  datatype Config = Config(
    m2: real, l2: real, j2: real, g: real,
    kQ1: real, kQ1Vel: real, kQ2: real, kQ2Vel: real,
    kArm: real, kArmVel: real, swingAccelMax: real, armZone: real, swingStartVel: real,
    catchAngle: real, fallAngle: real, catchCmdFraction: real, catchRampSteps: nat, motorAccelMax: real)

  /** on_configure */
  function Configured(p: Parameters): (c: Config) {
    var catch_, fall := Abs(p.catchAngle), Abs(p.fallAngle);
    Config(
      Abs(p.m2), Abs(p.l2), Abs(p.j2), Abs(p.g),
      p.kQ1, p.kQ1Vel, p.kQ2, p.kQ2Vel,
      Abs(p.kArm), Abs(p.kArmVel), Abs(p.swingAccelMax), Abs(p.armZone), Abs(p.swingStartVel),
      catch_, if fall <= catch_ then 2.0 * catch_ else fall,
      Clamp(p.catchCmdFraction, 0.05, 1.0), Max(1, p.catchRampSteps), Abs(p.motorAccelMax))
  }

  /** What update relies on, and every configuration has. */
  predicate ConfigOk(c: Config) {
    c.catchRampSteps >= 1 && c.motorAccelMax >= 0.0 && c.catchAngle >= 0.0 && c.fallAngle >= c.catchAngle
  }

  /** After on_configure the fall angle is the declared one wherever that lies above the catch angle,
      and there is hysteresis exactly when one of the declared angles is not zero. */
  lemma ConfiguredAngles(p: Parameters)
    ensures var c := Configured(p);
            && ConfigOk(c) && c.catchAngle == Abs(p.catchAngle)
            && (Abs(p.fallAngle) > c.catchAngle ==> c.fallAngle == Abs(p.fallAngle))
            && (c.fallAngle > c.catchAngle <==> p.catchAngle != 0.0 || p.fallAngle != 0.0)
            && 0.05 <= c.catchCmdFraction <= 1.0
  {}

  // ---- one cycle -----------------------------------------------------------------------------------

  /** The state interfaces, each possibly without a value, and the sign a zero pumping term has. */
  datatype Input = Input(q1: Option<real>, q1d: Option<real>, q2: Option<real>, q2d: Option<real>, zeroIsNegative: bool)

  datatype Mode = Mode(balancing: bool, rampRemaining: nat)

  function OrZero(x: Option<real>): real {
    match x case Some(v) => v case None => 0.0
  }

  function Tilt(pi: real, i: Input): real
    requires pi > 0.0
  {
    Remainder(OrZero(i.q2), 2.0 * pi)
  }

  function Lqr(pi: real, c: Config, i: Input): real
    requires pi > 0.0
  {
    -(c.kQ1 * OrZero(i.q1) + c.kQ1Vel * OrZero(i.q1d) + c.kQ2 * Tilt(pi, i) + c.kQ2Vel * OrZero(i.q2d))
  }

  /** A cycle that may start balancing: close enough, with a command the actuator can deliver. */
  predicate Catches(pi: real, c: Config, i: Input)
    requires pi > 0.0
  {
    Abs(Tilt(pi, i)) < c.catchAngle && Abs(Lqr(pi, c, i)) < c.catchCmdFraction * c.motorAccelMax
  }

  predicate Falls(pi: real, c: Config, i: Input)
    requires pi > 0.0
  {
    Abs(Tilt(pi, i)) > c.fallAngle
  }

  function Transition(pi: real, c: Config, m: Mode, i: Input): Mode
    requires pi > 0.0
  {
    if !m.balancing && Catches(pi, c, i) then Mode(true, c.catchRampSteps)
    else if m.balancing && Falls(pi, c, i) then m.(balancing := false)
    else m
  }

  function Pump(c: Config, cosine: real, i: Input): real {
    var q2d := OrZero(i.q2d);
    var energy := 0.5 * c.j2 * q2d * q2d + c.m2 * c.g * c.l2 * cosine;
    var direction := -(energy - c.m2 * c.g * c.l2) * q2d * cosine;
    if Abs(OrZero(i.q1)) >= c.armZone then 0.0
    else if Abs(q2d) <= c.swingStartVel then c.swingAccelMax
    else if direction < 0.0 || (direction == 0.0 && i.zeroIsNegative) then -c.swingAccelMax
    else c.swingAccelMax
  }

  /** The arm-centring term. */
  function Centring(c: Config, i: Input): real {
    -c.kArm * OrZero(i.q1) - c.kArmVel * OrZero(i.q1d)
  }

  function SwingUp(pi: real, cos: real -> real, c: Config, i: Input): real
    requires pi > 0.0
  {
    Pump(c, cos(Tilt(pi, i)), i) + Centring(c, i)
  }

  function Scaled(u: real, fraction: real): real { u * fraction }

  function Saturated(c: Config, u: real): real { Clamp(u, -c.motorAccelMax, c.motorAccelMax) }

  /** The command of a cycle in the mode the transition has led to, and the ramp after it. */
  function Command(pi: real, cos: real -> real, c: Config, m: Mode, i: Input): (r: (real, nat))
    requires pi > 0.0 && ConfigOk(c)
  {
    if !m.balancing then (Saturated(c, SwingUp(pi, cos, c, i)), m.rampRemaining)
    else if m.rampRemaining > 0 then
      var frac := 1.0 - m.rampRemaining as real / c.catchRampSteps as real;
      (Saturated(c, Scaled(Lqr(pi, c, i), frac)), m.rampRemaining - 1)
    else (Saturated(c, Lqr(pi, c, i)), 0)
  }

  function Updated(pi: real, cos: real -> real, c: Config, m: Mode, i: Input): (r: (Mode, real))
    requires pi > 0.0 && ConfigOk(c)
  {
    var t := Transition(pi, c, m, i);
    var (u, ramp) := Command(pi, cos, c, t, i);
    (t.(rampRemaining := ramp), u)
  }

  /** Whatever the mode and the measurements, the command is one the actuator can deliver. */
  lemma CommandIsDeliverable(pi: real, cos: real -> real, c: Config, m: Mode, i: Input)
    requires pi > 0.0 && ConfigOk(c)
    ensures -c.motorAccelMax <= Updated(pi, cos, c, m, i).1 <= c.motorAccelMax
  {
    hide Lqr, SwingUp, Catches, Falls;
  }

  function EnergyError(c: Config, cosine: real, q2d: real): real {
    0.5 * c.j2 * q2d * q2d + c.m2 * c.g * c.l2 * cosine - c.m2 * c.g * c.l2
  }

  /** Inside the arm zone and past the dead start the pump has its full size and the sign opposite to
      energy error times velocity times cosine. */
  lemma PumpOpposesTheEnergyError(c: Config, cosine: real, i: Input)
    requires Abs(OrZero(i.q1)) < c.armZone && Abs(OrZero(i.q2d)) > c.swingStartVel
    ensures var x := EnergyError(c, cosine, OrZero(i.q2d)) * OrZero(i.q2d) * cosine;
            && (x > 0.0 ==> Pump(c, cosine, i) == -c.swingAccelMax)
            && (x < 0.0 ==> Pump(c, cosine, i) == c.swingAccelMax)
            && x * Pump(c, cosine, i) == -c.swingAccelMax * Abs(x)
  {
    var q2d := OrZero(i.q2d);
    var e := EnergyError(c, cosine, q2d);
    var x, a := e * q2d * cosine, c.swingAccelMax;
    assert -e * q2d * cosine == -x;
    if x > 0.0 {
      assert Pump(c, cosine, i) == -a;
    } else if x < 0.0 {
      assert Pump(c, cosine, i) == a;
    }
    assert x * a == a * x && x * -a == -(a * x) && -a * x == -(a * x);
  }

  /** Beyond the arm zone the centring command takes the energy of the virtual spring and the arm,
      0.5 * k_arm * q1^2 + 0.5 * q1'^2, down at the rate k_arm_vel * q1'^2, wherever and however fast the
      arm is. */
  lemma CentringDissipates(pi: real, cos: real -> real, c: Config, i: Input)
    requires pi > 0.0 && c.kArmVel >= 0.0 && Abs(OrZero(i.q1)) >= c.armZone
    ensures var q1, q1d := OrZero(i.q1), OrZero(i.q1d);
            var rate := c.kArm * q1 * q1d + q1d * SwingUp(pi, cos, c, i);
            rate == -(c.kArmVel * (q1d * q1d)) && rate <= 0.0
  {
    hide Tilt;
    var q1, q1d := OrZero(i.q1), OrZero(i.q1d);
    var x, y := c.kArm * q1, c.kArmVel * q1d;
    assert -c.kArm * q1 == -x && -c.kArmVel * q1d == -y;
    assert q1d * (-x - y) == -(x * q1d) - y * q1d;
    assert y * q1d == c.kArmVel * (q1d * q1d);
    if q1d >= 0.0 { NotNegative(q1d, q1d); } else { NotNegative(-q1d, -q1d); assert -q1d * -q1d == q1d * q1d; }
    NotNegative(c.kArmVel, q1d * q1d);
  }

  // ---- traces ----------------------------------------------------------------------------------------

  /** on_activate, then a cycle per input. */
  function Run(pi: real, cos: real -> real, c: Config, inputs: seq<Input>): Mode
    requires pi > 0.0 && ConfigOk(c)
  {
    if inputs == [] then Mode(false, 0)
    else Updated(pi, cos, c, Run(pi, cos, c, inputs[..|inputs| - 1]), inputs[|inputs| - 1]).0
  }

  function Output(pi: real, cos: real -> real, c: Config, inputs: seq<Input>): real
    requires pi > 0.0 && ConfigOk(c) && inputs != []
  {
    Updated(pi, cos, c, Run(pi, cos, c, inputs[..|inputs| - 1]), inputs[|inputs| - 1]).1
  }

  /** Which cycle of a balancing episode the last cycle of a trace is, counting from 0; None while
      swinging up. */
  function Episode(pi: real, c: Config, inputs: seq<Input>): Option<nat>
    requires pi > 0.0
  {
    if inputs == [] then None
    else
      var last := inputs[|inputs| - 1];
      match Episode(pi, c, inputs[..|inputs| - 1])
      case None => if Catches(pi, c, last) then Some(0) else None
      case Some(j) => if Falls(pi, c, last) then None else Some(j + 1)
  }

  /** An episode's j-th cycle lies j cycles after a catch out of swing-up, and no cycle since fell. */
  lemma {:induction false} EpisodeStartsWithACatch(pi: real, c: Config, inputs: seq<Input>)
    requires pi > 0.0 && Episode(pi, c, inputs).Some?
    ensures var j := Episode(pi, c, inputs).value;
            && j < |inputs|
            && Catches(pi, c, inputs[|inputs| - 1 - j])
            && Episode(pi, c, inputs[..|inputs| - 1 - j]).None?
            && forall k :: |inputs| - j <= k < |inputs| ==> !Falls(pi, c, inputs[k])
  {
    hide Catches, Falls;
    var init := inputs[..|inputs| - 1];
    var j := Episode(pi, c, inputs).value;
    if j > 0 {
      EpisodeStartsWithACatch(pi, c, init);
      assert init[..|inputs| - 1 - j] == inputs[..|inputs| - 1 - j];
      forall k | |inputs| - j <= k < |inputs| ensures !Falls(pi, c, inputs[k]) {
        if k < |init| { assert inputs[k] == init[k]; }
      }
    }
  }

  /** An episode ends only by a fall: above the fall angle, and so, with hysteresis, strictly outside
      the catch angle. */
  lemma EpisodeEndsWithAFall(pi: real, c: Config, inputs: seq<Input>, i: Input)
    requires pi > 0.0 && Episode(pi, c, inputs).Some?
    ensures Episode(pi, c, inputs + [i]).None? <==> Falls(pi, c, i)
    ensures Falls(pi, c, i) && c.fallAngle > c.catchAngle ==> Abs(Tilt(pi, i)) > c.catchAngle
  {
    hide Catches, Tilt;
    assert (inputs + [i])[..|inputs|] == inputs;
  }

  predicate Follows(c: Config, m: Mode, j: Option<nat>) {
    match j
    case None => !m.balancing
    case Some(n) => m.balancing && m.rampRemaining == Max(c.catchRampSteps - (n + 1), 0)
  }

  /** The share of the LQR command that the j-th cycle of an episode applies. */
  function Share(c: Config, j: nat): real
    requires ConfigOk(c)
  {
    MinReal(j as real / c.catchRampSteps as real, 1.0)
  }

  lemma FractionLeft(n: nat, left: nat, j: nat)
    requires n >= 1 && left >= 1 && left + j == n
    ensures 1.0 - left as real / n as real == MinReal(j as real / n as real, 1.0)
  {
    var x, y := left as real / n as real, j as real / n as real;
    assert x + y == 1.0 by { assert (left as real + j as real) / n as real == x + y; }
    assert x > 0.0;
  }

  lemma FullShare(c: Config, j: nat)
    requires ConfigOk(c) && j >= c.catchRampSteps
    ensures Share(c, j) == 1.0
  {
    var n := c.catchRampSteps as real;
    assert j as real / n >= n / n;
  }

  /** What a cycle puts out when the trace so far is followed. */
  function Expected(pi: real, cos: real -> real, c: Config, j: Option<nat>, i: Input): real
    requires pi > 0.0 && ConfigOk(c)
  {
    match j
    case None => Saturated(c, SwingUp(pi, cos, c, i))
    case Some(n) => Saturated(c, Scaled(Lqr(pi, c, i), Share(c, n)))
  }

  lemma CycleFollows(pi: real, cos: real -> real, c: Config, m: Mode, inputs: seq<Input>, i: Input)
    requires pi > 0.0 && ConfigOk(c) && Follows(c, m, Episode(pi, c, inputs))
    ensures var (m', u) := Updated(pi, cos, c, m, i);
            var j := Episode(pi, c, inputs + [i]);
            Follows(c, m', j) && u == Expected(pi, cos, c, j, i)
  {
    hide Catches, Falls, Lqr, SwingUp, Saturated, Share, Scaled;
    assert (inputs + [i])[..|inputs|] == inputs;
    var t := Transition(pi, c, m, i);
    var j := Episode(pi, c, inputs + [i]);
    if j.Some? { RampGivesTheShare(pi, cos, c, t, j.value, i); }
  }

  lemma ScaledByOne(u: real)
    ensures Scaled(u, 1.0) == u
  {}

  lemma RampGivesTheShare(pi: real, cos: real -> real, c: Config, t: Mode, j: nat, i: Input)
    requires pi > 0.0 && ConfigOk(c) && t.balancing && t.rampRemaining == Max(c.catchRampSteps - j, 0)
    ensures Command(pi, cos, c, t, i)
         == (Saturated(c, Scaled(Lqr(pi, c, i), Share(c, j))), Max(c.catchRampSteps - (j + 1), 0))
  {
    hide Lqr, SwingUp, Saturated, Scaled;
    if t.rampRemaining > 0 {
      FractionLeft(c.catchRampSteps, t.rampRemaining, j);
    } else {
      FullShare(c, j);
      ScaledByOne(Lqr(pi, c, i));
    }
  }

  /** Over every trace the controller balances exactly during the episodes, and the j-th cycle of each
      puts out the saturated LQR command scaled by min(j / steps, 1), even when the episode before it
      fell while its ramp was still running. Every command is one the actuator can deliver. */
  lemma {:induction false} TraceFollowsEpisodes(pi: real, cos: real -> real, c: Config, inputs: seq<Input>)
    requires pi > 0.0 && ConfigOk(c)
    ensures Follows(c, Run(pi, cos, c, inputs), Episode(pi, c, inputs))
    ensures inputs != [] ==>
              && Output(pi, cos, c, inputs) == Expected(pi, cos, c, Episode(pi, c, inputs), inputs[|inputs| - 1])
              && -c.motorAccelMax <= Output(pi, cos, c, inputs) <= c.motorAccelMax
  {
    hide Follows, Expected, Updated;
    if inputs == [] {
      StartFollows(pi, c);
    } else {
      var init, last := inputs[..|inputs| - 1], inputs[|inputs| - 1];
      TraceFollowsEpisodes(pi, cos, c, init);
      CycleFollows(pi, cos, c, Run(pi, cos, c, init), init, last);
      CommandIsDeliverable(pi, cos, c, Run(pi, cos, c, init), last);
      assert init + [last] == inputs;
    }
  }

  lemma StartFollows(pi: real, c: Config)
    requires pi > 0.0
    ensures Follows(c, Mode(false, 0), Episode(pi, c, []))
  {}

  /** Inside an episode the cycles count up from its first. */
  lemma {:induction false} EpisodeCounts(pi: real, c: Config, inputs: seq<Input>, k: nat)
    requires pi > 0.0 && Episode(pi, c, inputs).Some?
    requires var j := Episode(pi, c, inputs).value; j < |inputs| && |inputs| - 1 - j <= k < |inputs|
    ensures Episode(pi, c, inputs[..k + 1]) == Some(k - (|inputs| - 1 - Episode(pi, c, inputs).value))
  {
    hide Catches, Falls;
    if k == |inputs| - 1 {
      assert inputs[..k + 1] == inputs;
    } else {
      var init := inputs[..|inputs| - 1];
      EpisodeStartsWithACatch(pi, c, init);
      assert init[..k + 1] == inputs[..k + 1];
      EpisodeCounts(pi, c, init, k);
    }
  }

  /** What one cycle of an episode that began at `start` puts out. */
  ghost predicate Balances(pi: real, cos: real -> real, c: Config, inputs: seq<Input>, start: nat, k: nat)
    requires pi > 0.0 && ConfigOk(c) && start <= k < |inputs|
  {
    && Run(pi, cos, c, inputs[..k + 1]).balancing
    && Output(pi, cos, c, inputs[..k + 1]) == Saturated(c, Scaled(Lqr(pi, c, inputs[k]), Share(c, k - start)))
    && (k > start ==> Abs(Tilt(pi, inputs[k])) <= c.fallAngle)
  }

  /** Every episode of balancing, for every configuration with a catch angle and every trace. It began at a
      cycle that came out of swing-up, below the catch angle, with a command the actuator can deliver; its
      j-th cycle put out the LQR command scaled by min(j / steps, 1) and saturated; and the next cycle ends
      it if and only if the angle then exceeds the fall angle, which lies above the catch angle. */
  lemma BalancingEpisode(pi: real, cos: real -> real, p: Parameters, inputs: seq<Input>, next: Input)
    returns (start: nat)
    requires pi > 0.0 && p.catchAngle != 0.0 && Run(pi, cos, Configured(p), inputs).balancing
    ensures var c := Configured(p);
      && ConfigOk(c) && c.fallAngle > c.catchAngle == Abs(p.catchAngle)
      && start < |inputs| && !Run(pi, cos, c, inputs[..start]).balancing
      && Abs(Tilt(pi, inputs[start])) < c.catchAngle
      && Abs(Lqr(pi, c, inputs[start])) < c.catchCmdFraction * c.motorAccelMax
      && (forall k: nat :: start <= k < |inputs| ==> Balances(pi, cos, c, inputs, start, k))
      && (!Run(pi, cos, c, inputs + [next]).balancing <==> Abs(Tilt(pi, next)) > c.fallAngle)
  {
    var c := Configured(p);
    ConfiguredAngles(p);
    hide Configured, Tilt, Lqr, Run, Output, Share;
    TraceFollowsEpisodes(pi, cos, c, inputs);
    EpisodeStartsWithACatch(pi, c, inputs);
    start := |inputs| - 1 - Episode(pi, c, inputs).value;
    TraceFollowsEpisodes(pi, cos, c, inputs[..start]);
    forall k: nat | start <= k < |inputs| ensures Balances(pi, cos, c, inputs, start, k) {
      EpisodeCounts(pi, c, inputs, k);
      TraceFollowsEpisodes(pi, cos, c, inputs[..k + 1]);
      assert inputs[..k + 1][k] == inputs[k];
      if k > start { assert !Falls(pi, c, inputs[k]); }
    }
    EpisodeEndsWithAFall(pi, c, inputs, next);
    TraceFollowsEpisodes(pi, cos, c, inputs + [next]);
  }

  // ---- the same in the declared parameters -----------------------------------------------------------------

  /** q2 is the measured pendulum angle in (-pi, pi] up to whole turns, or -pi. */
  ghost predicate IsTilt(pi: real, i: Input, q2: real) {
    -pi <= q2 <= pi && exists turns: int :: AwayByTurns(pi, q2, OrZero(i.q2), turns)
  }

  predicate AwayByTurns(pi: real, x: real, y: real, turns: int) { x == y + 2.0 * pi * turns as real }

  /** x is the full-state feedback -K * state. */
  predicate IsFeedback(p: Parameters, i: Input, q2: real, x: real) {
    x + p.kQ1 * OrZero(i.q1) + p.kQ1Vel * OrZero(i.q1d) + p.kQ2 * q2 + p.kQ2Vel * OrZero(i.q2d) == 0.0
  }

  lemma TiltAndFeedback(pi: real, p: Parameters, i: Input)
    requires pi > 0.0
    ensures IsTilt(pi, i, Tilt(pi, i)) && IsFeedback(p, i, Tilt(pi, i), Lqr(pi, Configured(p), i))
  {
    RemainderIsSmall(OrZero(i.q2), pi);
    var k := RemainderIsWhole(OrZero(i.q2), 2.0 * pi);
    hide Remainder;
    assert AwayByTurns(pi, Tilt(pi, i), OrZero(i.q2), k);
  }

  /** The feedback up to which balancing may start: a share of what the actuator can do. */
  function CatchLimit(p: Parameters): real { Clamp(p.catchCmdFraction, 0.05, 1.0) * Abs(p.motorAccelMax) }

  /** When the mode changes, for every trace: swing-up gives way to balancing exactly when the pendulum is
      within the catch angle and the feedback below its limit; balancing gives
      way to swing-up exactly when the pendulum is beyond the fall angle. */
  lemma ModeChangesExactly(pi: real, cos: real -> real, p: Parameters, inputs: seq<Input>, i: Input)
    returns (q2: real, x: real)
    requires pi > 0.0
    ensures ConfigOk(Configured(p)) && IsTilt(pi, i, q2) && IsFeedback(p, i, q2, x)
    ensures var catch_, fall := Abs(p.catchAngle), Abs(p.fallAngle);
            var was, becomes := Run(pi, cos, Configured(p), inputs), Run(pi, cos, Configured(p), inputs + [i]);
            && (!was.balancing ==>
                  (becomes.balancing <==> Abs(q2) < catch_ && Abs(x) < CatchLimit(p)))
            && (was.balancing ==>
                  (!becomes.balancing <==> Abs(q2) > if fall <= catch_ then 2.0 * catch_ else fall))
  {
    ConfiguredAngles(p);
    q2, x := Tilt(pi, i), Lqr(pi, Configured(p), i);
    TiltAndFeedback(pi, p, i);
    CatchesIs(pi, p, i);
    hide Tilt, Lqr, IsTilt, IsFeedback, Run, Catches, CatchLimit;
    ModeFollowsTheTransition(pi, cos, Configured(p), inputs, i);
  }

  lemma CatchesIs(pi: real, p: Parameters, i: Input)
    requires pi > 0.0
    ensures var c := Configured(p);
            Catches(pi, c, i) <==> Abs(Tilt(pi, i)) < Abs(p.catchAngle) && Abs(Lqr(pi, c, i)) < CatchLimit(p)
  {
    hide Tilt, Lqr, Clamp, Abs;
  }

  lemma ModeFollowsTheTransition(pi: real, cos: real -> real, c: Config, inputs: seq<Input>, i: Input)
    requires pi > 0.0 && ConfigOk(c)
    ensures var was := Run(pi, cos, c, inputs).balancing;
            Run(pi, cos, c, inputs + [i]).balancing <==> if was then !Falls(pi, c, i) else Catches(pi, c, i)
  {
    hide Catches, Falls, Command;
    assert (inputs + [i])[..|inputs|] == inputs;
  }

  ghost predicate BalancingAt(pi: real, cos: real -> real, c: Config, inputs: seq<Input>, k: nat)
    requires pi > 0.0 && ConfigOk(c) && k < |inputs|
  {
    Run(pi, cos, c, inputs[..k + 1]).balancing
  }

  /** What a balancing controller puts out, for every trace: in the j-th cycle since it last came out of
      swing-up the feedback times j / steps, and all of it from cycle `steps` on, within the actuator's
      limit. */
  lemma BalancingCommand(pi: real, cos: real -> real, p: Parameters, inputs: seq<Input>)
    returns (j: nat, q2: real, x: real)
    requires pi > 0.0 && inputs != [] && Run(pi, cos, Configured(p), inputs).balancing
    ensures ConfigOk(Configured(p)) && j < |inputs|
    ensures !Run(pi, cos, Configured(p), inputs[..|inputs| - 1 - j]).balancing
    ensures forall k: nat :: |inputs| - 1 - j <= k < |inputs| ==> BalancingAt(pi, cos, Configured(p), inputs, k)
    ensures IsTilt(pi, inputs[|inputs| - 1], q2) && IsFeedback(p, inputs[|inputs| - 1], q2, x)
    ensures var steps, most := Max(1, p.catchRampSteps), Abs(p.motorAccelMax);
            Output(pi, cos, Configured(p), inputs)
            == Clamp(if j < steps then x * (j as real / steps as real) else x, -most, most)
  {
    var c, last := Configured(p), inputs[|inputs| - 1];
    ConfiguredAngles(p);
    q2, x := Tilt(pi, last), Lqr(pi, c, last);
    TiltAndFeedback(pi, p, last);
    hide Tilt, Lqr, IsTilt, IsFeedback, Run, Output, Catches, Falls;
    TraceFollowsEpisodes(pi, cos, c, inputs);
    EpisodeStartsWithACatch(pi, c, inputs);
    j := Episode(pi, c, inputs).value;
    TraceFollowsEpisodes(pi, cos, c, inputs[..|inputs| - 1 - j]);
    forall k: nat | |inputs| - 1 - j <= k < |inputs| ensures BalancingAt(pi, cos, c, inputs, k) {
      EpisodeCounts(pi, c, inputs, k);
      TraceFollowsEpisodes(pi, cos, c, inputs[..k + 1]);
    }
    ShareIs(p, j, x);
  }

  lemma ShareIs(p: Parameters, j: nat, x: real)
    ensures ConfigOk(Configured(p))
    ensures var steps := Max(1, p.catchRampSteps);
            Scaled(x, Share(Configured(p), j)) == if j < steps then x * (j as real / steps as real) else x
  {
    var c := Configured(p);
    var n := c.catchRampSteps as real;
    if j < c.catchRampSteps {
      assert j as real / n <= n / n;
    } else {
      FullShare(c, j);
    }
  }

  /** The pendulum's energy above its value at rest upright, with the declared masses and lengths. */
  function Excess(p: Parameters, q2d: real, cosine: real): real {
    0.5 * Abs(p.j2) * (q2d * q2d) + Abs(p.m2) * Abs(p.g) * Abs(p.l2) * (cosine - 1.0)
  }

  lemma ExcessIs(p: Parameters, q2d: real, cosine: real)
    ensures Excess(p, q2d, cosine) == EnergyError(Configured(p), cosine, q2d)
  {
    var j, k := 0.5 * Abs(p.j2), Abs(p.m2) * Abs(p.g) * Abs(p.l2);
    assert j * (q2d * q2d) == j * q2d * q2d;
    assert k * (cosine - 1.0) == k * cosine - k;
  }

  /** The pump: nothing beyond the arm zone, upwards while the pendulum hardly moves, and otherwise of full
      size with the sign that takes the energy towards its upright value. */
  predicate PumpLaw(p: Parameters, i: Input, cosine: real, pump: real) {
    var inZone, moving := Abs(OrZero(i.q1)) < Abs(p.armZone), Abs(OrZero(i.q2d)) > Abs(p.swingStartVel);
    var drive, size := Excess(p, OrZero(i.q2d), cosine) * OrZero(i.q2d) * cosine, Abs(p.swingAccelMax);
    && (!inZone ==> pump == 0.0)
    && (inZone && !moving ==> pump == size)
    && (inZone && moving ==>
          && (drive > 0.0 ==> pump == -size) && (drive < 0.0 ==> pump == size)
          && (drive == 0.0 ==> pump == if i.zeroIsNegative then -size else size))
  }

  lemma PumpObeysItsLaw(p: Parameters, i: Input, cosine: real)
    ensures PumpLaw(p, i, cosine, Pump(Configured(p), cosine, i))
  {
    var c, q2d := Configured(p), OrZero(i.q2d);
    ExcessIs(p, q2d, cosine);
    PumpSize(c, cosine, i);
    if Abs(OrZero(i.q1)) < c.armZone && Abs(q2d) > c.swingStartVel {
      PumpOpposesTheEnergyError(c, cosine, i);
    }
    hide Pump, EnergyError, Excess;
  }

  lemma PumpSize(c: Config, cosine: real, i: Input)
    ensures Abs(OrZero(i.q1)) >= c.armZone ==> Pump(c, cosine, i) == 0.0
    ensures Abs(OrZero(i.q1)) < c.armZone && Abs(OrZero(i.q2d)) <= c.swingStartVel ==>
              Pump(c, cosine, i) == c.swingAccelMax
    ensures Abs(OrZero(i.q1)) < c.armZone && Abs(OrZero(i.q2d)) > c.swingStartVel
            && EnergyError(c, cosine, OrZero(i.q2d)) * OrZero(i.q2d) * cosine == 0.0 ==>
              Pump(c, cosine, i) == if i.zeroIsNegative then -c.swingAccelMax else c.swingAccelMax
  {
    var e, q2d := EnergyError(c, cosine, OrZero(i.q2d)), OrZero(i.q2d);
    assert -e * q2d * cosine == -(e * q2d * cosine);
  }

  /** The pull that centres the arm. */
  function ArmPull(k: real, kVel: real, i: Input): real { k * OrZero(i.q1) + kVel * OrZero(i.q1d) }

  /** What a controller that swings up puts out, for every trace: the pump and the centring of the arm, within
      the actuator's limit. */
  lemma SwingUpCommand(pi: real, cos: real -> real, p: Parameters, inputs: seq<Input>)
    returns (q2: real, pump: real)
    requires pi > 0.0 && inputs != [] && !Run(pi, cos, Configured(p), inputs).balancing
    ensures ConfigOk(Configured(p))
    ensures IsTilt(pi, inputs[|inputs| - 1], q2) && PumpLaw(p, inputs[|inputs| - 1], cos(q2), pump)
    ensures var i, most := inputs[|inputs| - 1], Abs(p.motorAccelMax);
            Output(pi, cos, Configured(p), inputs)
            == Clamp(pump - ArmPull(Abs(p.kArm), Abs(p.kArmVel), i), -most, most)
  {
    ConfiguredAngles(p);
    hide Tilt, IsTilt, Run, Output, PumpLaw, Pump, Centring, IsFeedback, ArmPull, Saturated, Configured, ConfigOk, Abs;
    var c, i := Configured(p), inputs[|inputs| - 1];
    q2 := Tilt(pi, i);
    pump := Pump(c, cos(q2), i);
    TiltAndFeedback(pi, p, i);
    SwungUpOutput(pi, cos, c, inputs);
    PumpObeysItsLaw(p, i, cos(q2));
    SaturatedSwingUp(p, i, pump);
  }

  lemma SaturatedSwingUp(p: Parameters, i: Input, pump: real)
    ensures var most := Abs(p.motorAccelMax);
            Saturated(Configured(p), pump + Centring(Configured(p), i))
            == Clamp(pump - ArmPull(Abs(p.kArm), Abs(p.kArmVel), i), -most, most)
  {
    CentringIs(Configured(p), i);
    hide Centring, ArmPull, Abs;
  }

  lemma CentringIs(c: Config, i: Input)
    ensures Centring(c, i) == -ArmPull(c.kArm, c.kArmVel, i)
  {
    MinusSum(c.kArm, OrZero(i.q1), c.kArmVel, OrZero(i.q1d));
  }

  lemma MinusSum(a: real, x: real, b: real, y: real)
    ensures -a * x - b * y == -(a * x + b * y)
  {}

  lemma SwungUpOutput(pi: real, cos: real -> real, c: Config, inputs: seq<Input>)
    requires pi > 0.0 && ConfigOk(c) && inputs != [] && !Run(pi, cos, c, inputs).balancing
    ensures var i := inputs[|inputs| - 1];
            Output(pi, cos, c, inputs) == Saturated(c, Pump(c, cos(Tilt(pi, i)), i) + Centring(c, i))
  {
    hide Pump, Centring, Catches, Falls, Lqr;
  }

  // ---- the controller object ---------------------------------------------------------------------------

  class InvertedPendulumController {
    const pi: real
    const cos: real -> real
    var config: Config
    var balancing: bool
    var catchRampRemaining: nat
    /** The acceleration command interface. */
    var command: real

    ghost function View(): Mode
      reads this
    {
      Mode(balancing, catchRampRemaining)
    }

    ghost predicate Valid()
      reads this
    {
      pi > 0.0 && ConfigOk(config)
    }

    constructor (pi: real, cos: real -> real, p: Parameters)
      requires pi > 0.0
      ensures Valid() && this.pi == pi && this.cos == cos && config == Configured(p)
    {
      this.pi, this.cos := pi, cos;
      balancing, catchRampRemaining, command := false, 0, 0.0;
      new;
      OnConfigure(p);
    }

    method OnConfigure(p: Parameters)
      requires pi > 0.0
      modifies `config
      ensures Valid() && config == Configured(p)
    {
      config := Configured(p);
    }

    method OnActivate()
      requires Valid()
      modifies `balancing, `catchRampRemaining
      ensures Valid() && View() == Run(pi, cos, config, [])
    {
      balancing, catchRampRemaining := false, 0;
    }

    method OnDeactivate(settable: bool)
      requires Valid()
      modifies `command
      ensures Valid() && command == if settable then 0.0 else old(command)
    {
      if settable { command := 0.0; }
    }

    /** update; it reports an error when the command interface cannot be set, having changed mode all
        the same. */
    method Update(i: Input, settable: bool) returns (ok: bool)
      requires Valid()
      modifies `balancing, `catchRampRemaining, `command
      ensures Valid() && View() == Updated(pi, cos, config, old(View()), i).0
      ensures ok == settable
      ensures command == if ok then Updated(pi, cos, config, old(View()), i).1 else old(command)
    {
      hide Tilt, Lqr, SwingUp;
      var lqrCandidate := Lqr(pi, config, i);
      var absTilt := Abs(Tilt(pi, i));
      var commandIsSafe := Abs(lqrCandidate) < config.catchCmdFraction * config.motorAccelMax;
      if !balancing && absTilt < config.catchAngle && commandIsSafe {
        balancing := true;
        catchRampRemaining := config.catchRampSteps;
      } else if balancing && absTilt > config.fallAngle {
        balancing := false;
      }
      var u := 0.0;
      if balancing {
        u := lqrCandidate;
        if catchRampRemaining > 0 {
          var frac := 1.0 - catchRampRemaining as real / config.catchRampSteps as real;
          u := Scaled(u, frac);
          catchRampRemaining := catchRampRemaining - 1;
        }
      } else {
        u := SwingUp(pi, cos, config, i);
      }
      u := Clamp(u, -config.motorAccelMax, config.motorAccelMax);
      if settable { command := u; }
      ok := settable;
    }
  }
}
