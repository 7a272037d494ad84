/**
 The control loop of demos/inverted_pendulum/inverted_pendulum_tier2/src/main.cpp over the reals:
 the command watchdog and velocity integrator, the travel limit and the stepper driver they steer.
 PI only has to be positive, and every driver call may fail.
 */
module FirmwareModel {
  import opened Bytes
  import opened RealMath

  const CONTROL_PERIOD: real := 0.01
  const TIMEOUT_CYCLES := 20
  const PROJECTION_PERIODS: real := 2.0
  const MAX_VELOCITY: real := 7.0
  const MIN_INTERVAL: real := 60000.0
  const MAX_INTERVAL: real := 1000000000.0

  lemma LRoundStaysBetween(x: real, lo: int, hi: int)
    requires lo as real <= x <= hi as real
    ensures lo <= LRound(x) <= hi
  {}

  // ---- the board -------------------------------------------------------------------------------

  /** The motor's resolution and the position it was powered on at. */
  datatype Board = Board(pi: real, perRev: nat, boot: int)

  predicate BoardOk(b: Board) {
    b.pi > 0.0 && b.perRev > 0
  }

  function AngleLimit(b: Board): real { 135.0 * b.pi / 180.0 }

  /** microsteps_to_angle */
  function Angle(b: Board, microsteps: int): real
    requires BoardOk(b)
  {
    2.0 * b.pi * microsteps as real / b.perRev as real
  }

  function LimitMicrosteps(b: Board): int
    requires BoardOk(b)
  {
    LRound(AngleLimit(b) / (2.0 * b.pi) * b.perRev as real)
  }

  function MinPosition(b: Board): int requires BoardOk(b) { b.boot - LimitMicrosteps(b) }

  function MaxPosition(b: Board): int requires BoardOk(b) { b.boot + LimitMicrosteps(b) }

  lemma LimitIsThreeEighths(b: Board)
    requires BoardOk(b)
    ensures LimitMicrosteps(b) == LRound(0.375 * b.perRev as real)
    ensures LimitMicrosteps(b) >= 0
  {
    assert AngleLimit(b) == 0.375 * (2.0 * b.pi);
    assert AngleLimit(b) / (2.0 * b.pi) == 0.375;
  }

  // ---- the driver ------------------------------------------------------------------------------

  /** The step generator: it only ever steps towards its target, and not at all without one. */
  datatype Driver = Driver(position: int, target: Option<int>, interval: int)

  function StepOnce(d: Driver): Driver {
    if d.target.None? || d.target.value == d.position then d
    else d.(position := if d.target.value > d.position then d.position + 1 else d.position - 1)
  }

  function MicrostepsPerSecond(b: Board, v: real): real
    requires BoardOk(b)
  {
    Abs(v) * b.perRev as real / (2.0 * b.pi)
  }

  /** The microstep rate is the angular speed: perRev microsteps make 2 pi. */
  lemma RateIsTheSpeed(b: Board, v: real)
    requires BoardOk(b)
    ensures MicrostepsPerSecond(b, v) * (2.0 * b.pi) == Abs(v) * b.perRev as real
  {}

  lemma Moves(b: Board, v: real)
    requires BoardOk(b) && v != 0.0
    ensures MicrostepsPerSecond(b, v) > 0.0
  {
    var x := Abs(v) * b.perRev as real;
    assert x > 0.0;
    assert x / (2.0 * b.pi) > 0.0;
  }

  function StepInterval(b: Board, v: real): real
    requires BoardOk(b) && v != 0.0
  {
    Moves(b, v);
    1000000000.0 / MicrostepsPerSecond(b, v)
  }

  /** kStepIntervalForMaxVelNs */
  function FastestInterval(b: Board): int
    requires BoardOk(b)
  {
    (1000000000.0 * 2.0 * b.pi / (MAX_VELOCITY * b.perRev as real)).Floor
  }

  /** Where set_stepper_angular_vel sends the motor from the position it has read: the projected
      position, clamped. */
  function MoveTarget(b: Board, actual: int, v: real): int
    requires BoardOk(b)
  {
    var speed := if v > 0.0 then MicrostepsPerSecond(b, v) else -MicrostepsPerSecond(b, v);
    LRound(Clamp(actual as real + speed * CONTROL_PERIOD * PROJECTION_PERIODS,
                 MinPosition(b) as real, MaxPosition(b) as real))
  }

  /** Whatever position was read, or made up, the target lies within the travel. */
  lemma TargetsStayInRange(b: Board, actual: int, v: real)
    requires BoardOk(b)
    ensures MinPosition(b) <= MoveTarget(b, actual, v) <= MaxPosition(b)
  {
    hide LRound, LimitMicrosteps;
    LimitIsThreeEighths(b);
    var speed := if v > 0.0 then MicrostepsPerSecond(b, v) else -MicrostepsPerSecond(b, v);
    var x := Clamp(actual as real + speed * CONTROL_PERIOD * PROJECTION_PERIODS,
                   MinPosition(b) as real, MaxPosition(b) as real);
    LRoundStaysBetween(x, MinPosition(b), MaxPosition(b));
  }

  predicate InTravel(b: Board, position: int)
    requires BoardOk(b)
  {
    MinPosition(b) <= position <= MaxPosition(b)
  }

  /** From a position inside the travel the target lies in the commanded direction and, where the limits
      do not cut it, within half a microstep of two control periods' travel. */
  lemma TargetLeadsTheReading(b: Board, actual: int, v: real)
    requires BoardOk(b) && v != 0.0 && InTravel(b, actual)
    ensures v > 0.0 ==> actual <= MoveTarget(b, actual, v)
    ensures v < 0.0 ==> MoveTarget(b, actual, v) <= actual
    ensures var ahead := (if v > 0.0 then 0.02 else -0.02) * MicrostepsPerSecond(b, v);
            MinPosition(b) as real <= actual as real + ahead <= MaxPosition(b) as real ==>
              -0.5 <= (MoveTarget(b, actual, v) - actual) as real - ahead <= 0.5
  {
    hide LRound, LimitMicrosteps, MicrostepsPerSecond;
    Moves(b, v);
    var speed := if v > 0.0 then MicrostepsPerSecond(b, v) else -MicrostepsPerSecond(b, v);
    var x := Clamp(actual as real + speed * CONTROL_PERIOD * PROJECTION_PERIODS,
                   MinPosition(b) as real, MaxPosition(b) as real);
    if v > 0.0 {
      LRoundStaysBetween(x, actual, MaxPosition(b));
    } else {
      LRoundStaysBetween(x, MinPosition(b), actual);
    }
  }

  predicate IntervalAllowed(b: Board, v: real)
    requires BoardOk(b) && v != 0.0
  {
    MIN_INTERVAL <= StepInterval(b, v) <= MAX_INTERVAL
  }

  /** The interval that is set for a velocity whose own interval is allowed. */
  function Interval(b: Board, v: real): int
    requires BoardOk(b) && v != 0.0
  {
    Clamp(StepInterval(b, v), FastestInterval(b) as real, MAX_INTERVAL).Floor
  }

  lemma FastestFits(b: Board)
    requires BoardOk(b) && 2.0 * b.pi <= MAX_VELOCITY * b.perRev as real
    ensures FastestInterval(b) as real <= MAX_INTERVAL
  {
    QuotientAtMost(1000000000.0 * 2.0 * b.pi, MAX_VELOCITY * b.perRev as real, 1000000000.0);
  }

  /** Within what the stepper can do, and within one nanosecond at least as long as a step at 7 rad/s. */
  predicate IntervalSafe(b: Board, interval: int) {
    && 60_000 <= interval <= 1_000_000_000
    && 1000000000.0 * 2.0 * b.pi < (interval + 1) as real * (7.0 * b.perRev as real)
  }

  lemma FloorOfRatio(x: real, y: real, k: int)
    requires y > 0.0 && (x / y).Floor <= k
    ensures x < (k + 1) as real * y
  {
    var q := x / y;
    assert q * y == x && q < (k + 1) as real;
    Positive((k + 1) as real - q, y);
    assert ((k + 1) as real - q) * y == (k + 1) as real * y - q * y;
  }

  lemma SetIntervalIsSafe(b: Board, v: real)
    requires BoardOk(b) && v != 0.0 && IntervalAllowed(b, v)
    requires 2.0 * b.pi <= MAX_VELOCITY * b.perRev as real
    ensures IntervalSafe(b, Interval(b, v))
  {
    hide StepInterval, Clamp, MicrostepsPerSecond, LimitMicrosteps;
    FastestFits(b);
    ClampedFloor(StepInterval(b, v), FastestInterval(b), 60000);
    FloorOfRatio(1000000000.0 * 2.0 * b.pi, MAX_VELOCITY * b.perRev as real, Interval(b, v));
  }

  /** Whether a step at v takes an interval the stepper can do: 60 microseconds to a second. */
  predicate Steppable(b: Board, v: real) {
    60000.0 * (Abs(v) * b.perRev as real) <= 1000000000.0 * (2.0 * b.pi) <= 1000000000.0 * (Abs(v) * b.perRev as real)
  }

  lemma IntervalAsQuotient(b: Board, v: real)
    requires BoardOk(b) && v != 0.0
    ensures Abs(v) * b.perRev as real > 0.0
    ensures StepInterval(b, v) == 1000000000.0 * (2.0 * b.pi) / (Abs(v) * b.perRev as real)
  {
    var x, t, y := 1000000000.0, 2.0 * b.pi, Abs(v) * b.perRev as real;
    Positive(Abs(v), b.perRev as real);
    QuotientOfQuotient(x, y, t);
  }

  lemma QuotientOfQuotient(x: real, y: real, t: real)
    requires y > 0.0 && t > 0.0
    ensures y / t > 0.0 && x / (y / t) == x * t / y
  {
    var q := y / t;
    assert q * t == y;
    assert q > 0.0;
    var r := x / q;
    assert r * q == x;
    assert r * y == r * q * t == x * t;
    assert (r * y) / y == r;
  }

  lemma QuotientAtLeast(x: real, y: real, lo: real)
    requires y > 0.0
    ensures lo <= x / y <==> lo * y <= x
  {
    var q := x / y;
    assert q * y == x;
    if lo <= q {
      NotNegative(q - lo, y);
    } else {
      Positive(lo - q, y);
    }
    assert (q - lo) * y == q * y - lo * y && (lo - q) * y == lo * y - q * y;
  }

  lemma QuotientAtMostIff(x: real, y: real, hi: real)
    requires y > 0.0
    ensures x / y <= hi <==> x <= hi * y
  {
    var q := x / y;
    assert q * y == x;
    if q <= hi {
      NotNegative(hi - q, y);
    } else {
      Positive(q - hi, y);
    }
    assert (hi - q) * y == hi * y - q * y && (q - hi) * y == q * y - hi * y;
  }

  lemma AllowedMeansSteppable(b: Board, v: real)
    requires BoardOk(b) && v != 0.0
    ensures IntervalAllowed(b, v) <==> Steppable(b, v)
  {
    hide StepInterval;
    IntervalAsQuotient(b, v);
    QuotientAtLeast(1000000000.0 * (2.0 * b.pi), Abs(v) * b.perRev as real, MIN_INTERVAL);
    QuotientAtMostIff(1000000000.0 * (2.0 * b.pi), Abs(v) * b.perRev as real, MAX_INTERVAL);
  }

  /** The interval at which the motor turns at v, rounded down to a nanosecond. */
  predicate TurnsAt(b: Board, v: real, interval: int) {
    && interval as real * (Abs(v) * b.perRev as real) <= 1000000000.0 * (2.0 * b.pi)
    && 1000000000.0 * (2.0 * b.pi) < (interval + 1) as real * (Abs(v) * b.perRev as real)
  }

  lemma FloorTurns(x: real, y: real)
    requires y > 0.0
    ensures (x / y).Floor as real * y <= x < ((x / y).Floor + 1) as real * y
  {
    QuotientAtLeast(x, y, (x / y).Floor as real);
    FloorOfRatio(x, y, (x / y).Floor);
  }

  lemma SlowerTakesLonger(b: Board, v: real)
    requires BoardOk(b) && v != 0.0 && Abs(v) <= MAX_VELOCITY
    ensures FastestInterval(b) as real <= StepInterval(b, v)
  {
    var x, y, z := 1000000000.0 * (2.0 * b.pi), Abs(v) * b.perRev as real, MAX_VELOCITY * b.perRev as real;
    IntervalAsQuotient(b, v);
    NotNegative(MAX_VELOCITY - Abs(v), b.perRev as real);
    assert y <= z;
    assert x == 1000000000.0 * 2.0 * b.pi;
    QuotientAtLeast(x, z, x / z);
    NotNegative(x / z, z - y);
    assert x / z * (z - y) == x / z * z - x / z * y;
    QuotientAtLeast(x, y, x / z);
  }

  lemma IntervalTurns(b: Board, v: real)
    requires BoardOk(b) && v != 0.0 && Abs(v) <= MAX_VELOCITY && IntervalAllowed(b, v)
    ensures TurnsAt(b, v, Interval(b, v))
  {
    hide StepInterval, FastestInterval, TurnsAt;
    SlowerTakesLonger(b, v);
    assert Interval(b, v) == StepInterval(b, v).Floor;
    IntervalAsQuotient(b, v);
    FloorIsTurning(b, v);
  }

  lemma FloorIsTurning(b: Board, v: real)
    requires BoardOk(b) && v != 0.0 && Abs(v) * b.perRev as real > 0.0
    ensures TurnsAt(b, v, (1000000000.0 * (2.0 * b.pi) / (Abs(v) * b.perRev as real)).Floor)
  {
    FloorTurns(1000000000.0 * (2.0 * b.pi), Abs(v) * b.perRev as real);
  }

  lemma ClampedFloor(x: real, lo: int, m: int)
    requires lo as real <= MAX_INTERVAL && m as real <= x <= MAX_INTERVAL
    ensures lo <= Clamp(x, lo as real, MAX_INTERVAL).Floor && m <= Clamp(x, lo as real, MAX_INTERVAL).Floor
    ensures Clamp(x, lo as real, MAX_INTERVAL).Floor as real <= MAX_INTERVAL
  {}

  predicate Confined(b: Board, d: Driver)
    requires BoardOk(b)
  {
    InTravel(b, d.position) && (d.target.Some? ==> InTravel(b, d.target.value))
  }

  // ---- the watchdog and the integrator -----------------------------------------------------------

  datatype Watchdog = Watchdog(lastCount: uint32, cycles: nat, acceleration: real, velocity: real)

  /** What the client shows a cycle: the accepted-command count and, if read_command succeeds, the
      commanded acceleration. */
  datatype Input = Input(count: uint32, command: Option<real>)

  function Watched(w: Watchdog, input: Input): Watchdog {
    if input.count != w.lastCount then
      w.(lastCount := input.count, cycles := 0,
         acceleration := if input.command.Some? then input.command.value else w.acceleration)
    else if w.cycles < TIMEOUT_CYCLES then w.(cycles := w.cycles + 1)
    else w.(acceleration := 0.0, velocity := 0.0)
  }

  /** enforce_stepper_hard_stop */
  function HardStop(limit: real, angle: real, v: real): real {
    if (angle >= limit && v > 0.0) || (angle <= -limit && v < 0.0) then 0.0 else v
  }

  /** What a cycle adds to the velocity. */
  function Increment(acceleration: real): real { acceleration * CONTROL_PERIOD }

  function Integrated(w: Watchdog, limit: real, angle: real): Watchdog {
    w.(velocity := HardStop(limit, angle,
                            Clamp(w.velocity + Increment(w.acceleration), -MAX_VELOCITY, MAX_VELOCITY)))
  }

  // ---- the loop --------------------------------------------------------------------------------

  /** Where the loop is between two of its driver calls. */
  datatype Phase = Top | Commanding | Steering | Aiming | Moving(actual: int)

  datatype Loop = Loop(watchdog: Watchdog, angle: real, driver: Driver, phase: Phase)

  /** What happens, one driver call at a time, each with its outcome: a control cycle observes the
      position, takes in the command, stops the motor or sets its step interval, reads the position
      again and moves. In between the driver may step at any time. An event out of turn does
      nothing. */
  datatype Event =
    | Observe(ok: bool)
    | Command(input: Input)
    | Drive(stopOk: bool, intervalOk: bool)
    | Aim(ok: bool)
    | Move(ok: bool)
    | Step

  function Observed(b: Board, l: Loop, ok: bool): Loop
    requires BoardOk(b)
  {
    l.(angle := if ok then Angle(b, l.driver.position) - Angle(b, b.boot) else l.angle, phase := Commanding)
  }

  function Commanded(b: Board, l: Loop, input: Input): Loop {
    l.(watchdog := Integrated(Watched(l.watchdog, input), AngleLimit(b), l.angle), phase := Steering)
  }

  function Driven(b: Board, l: Loop, stopOk: bool, intervalOk: bool): Loop
    requires BoardOk(b)
  {
    var v := l.watchdog.velocity;
    if v == 0.0 || !IntervalAllowed(b, v) then
      l.(driver := if stopOk then l.driver.(target := None) else l.driver, phase := Top)
    else if !intervalOk then l.(phase := Top)
    else l.(driver := l.driver.(interval := Interval(b, v)), phase := Aiming)
  }

  /** A position that cannot be read counts as 0. */
  function Aimed(l: Loop, ok: bool): Loop {
    l.(phase := Moving(if ok then l.driver.position else 0))
  }

  function Moved(b: Board, l: Loop, ok: bool): Loop
    requires BoardOk(b) && l.phase.Moving?
  {
    var target := Some(MoveTarget(b, l.phase.actual, l.watchdog.velocity));
    l.(driver := if ok then l.driver.(target := target) else l.driver, phase := Top)
  }

  function Next(b: Board, l: Loop, e: Event): Loop
    requires BoardOk(b)
  {
    match e
    case Observe(ok) => if l.phase.Top? then Observed(b, l, ok) else l
    case Command(input) => if l.phase.Commanding? then Commanded(b, l, input) else l
    case Drive(stopOk, intervalOk) => if l.phase.Steering? then Driven(b, l, stopOk, intervalOk) else l
    case Aim(ok) => if l.phase.Aiming? then Aimed(l, ok) else l
    case Move(ok) => if l.phase.Moving? then Moved(b, l, ok) else l
    case Step => l.(driver := StepOnce(l.driver))
  }

  function Boot(b: Board, count: uint32): Loop {
    Loop(Watchdog(count, 0, 0.0, 0.0), 0.0, Driver(b.boot, None, 0), Top)
  }

  function RunFrom(b: Board, l: Loop, events: seq<Event>): Loop
    requires BoardOk(b)
  {
    if events == [] then l
    else Next(b, RunFrom(b, l, events[..|events| - 1]), events[|events| - 1])
  }

  function RunLoop(b: Board, count: uint32, events: seq<Event>): Loop
    requires BoardOk(b)
  {
    RunFrom(b, Boot(b, count), events)
  }

  lemma ConfinedStep(b: Board, l: Loop, e: Event)
    requires BoardOk(b) && Confined(b, l.driver)
    ensures Confined(b, Next(b, l, e).driver)
  {
    hide MoveTarget, Interval, IntervalAllowed, LimitMicrosteps, Angle, Integrated, Watched;
    if l.phase.Moving? { TargetsStayInRange(b, l.phase.actual, l.watchdog.velocity); }
  }

  /** Whatever is commanded, whichever driver calls fail and wherever between those calls the driver
      steps, the motor and every target it is given stay within the limit of where it was powered
      on. */
  lemma {:induction false} NeverLeavesTheTravel(b: Board, count: uint32, events: seq<Event>)
    requires BoardOk(b)
    ensures Confined(b, RunLoop(b, count, events).driver)
  {
    hide Next, LimitMicrosteps;
    if events == [] {
      LimitIsThreeEighths(b);
    } else {
      var init, last := events[..|events| - 1], events[|events| - 1];
      NeverLeavesTheTravel(b, count, init);
      ConfinedStep(b, RunLoop(b, count, init), last);
    }
  }

  /** The driver has a safe step interval whenever it has somewhere to go. */
  predicate PacedSafely(b: Board, l: Loop)
    requires BoardOk(b)
  {
    l.driver.target.Some? || l.phase.Aiming? || l.phase.Moving? ==> IntervalSafe(b, l.driver.interval)
  }

  lemma PacedStep(b: Board, l: Loop, e: Event)
    requires BoardOk(b) && PacedSafely(b, l) && 2.0 * b.pi <= MAX_VELOCITY * b.perRev as real
    ensures PacedSafely(b, Next(b, l, e))
  {
    hide MoveTarget, Interval, IntervalAllowed, Angle, Integrated, Watched, IntervalSafe;
    var v := l.watchdog.velocity;
    if v != 0.0 && IntervalAllowed(b, v) { SetIntervalIsSafe(b, v); }
  }

  /** In every run a motor that has a target steps no faster than the stepper and the maximum velocity
      allow: the interval is always set before the first move, a refused one sends it nowhere, and it is
      replaced only by another safe one. */
  lemma {:induction false} MotorNeverStepsTooFast(b: Board, count: uint32, events: seq<Event>)
    requires BoardOk(b) && 2.0 * b.pi <= MAX_VELOCITY * b.perRev as real
    ensures PacedSafely(b, RunLoop(b, count, events))
  {
    hide Next, IntervalSafe;
    if events != [] {
      var init, last := events[..|events| - 1], events[|events| - 1];
      MotorNeverStepsTooFast(b, count, init);
      PacedStep(b, RunLoop(b, count, init), last);
    }
  }

  /** When the driver accepts a move it is sent, from where it was seen last, in the commanded direction
      and, where the limits do not cut it, to within half a microstep of two control periods'
      travel. */
  lemma MotorFollowsTheCommand(b: Board, l: Loop)
    requires BoardOk(b) && l.phase.Moving? && InTravel(b, l.phase.actual) && l.watchdog.velocity != 0.0
    ensures var v, seen, target := l.watchdog.velocity, l.phase.actual, Next(b, l, Move(true)).driver.target;
            && target.Some? && InTravel(b, target.value)
            && (v > 0.0 ==> seen <= target.value) && (v < 0.0 ==> target.value <= seen)
            && var ahead := (if v > 0.0 then 0.02 else -0.02) * MicrostepsPerSecond(b, v);
               MinPosition(b) as real <= seen as real + ahead <= MaxPosition(b) as real ==>
                 -0.5 <= (target.value - seen) as real - ahead <= 0.5
  {
    hide LRound, LimitMicrosteps, MicrostepsPerSecond, MoveTarget;
    TargetsStayInRange(b, l.phase.actual, l.watchdog.velocity);
    TargetLeadsTheReading(b, l.phase.actual, l.watchdog.velocity);
  }

  /** A position read just before counts as the one to go on from, however far the driver steps meanwhile. */
  lemma MotorStartsFromTheReading(b: Board, l: Loop, n: nat)
    requires BoardOk(b) && l.phase.Aiming?
    ensures var seen := RunFrom(b, Next(b, l, Aim(true)), Steps(n));
            seen.phase == Moving(l.driver.position) && seen.watchdog == l.watchdog
  {
    PhaseStays(b, Next(b, l, Aim(true)), n);
  }

  lemma {:induction false} PhaseStays(b: Board, l: Loop, n: nat)
    requires BoardOk(b)
    ensures var r := RunFrom(b, l, Steps(n)); r.phase == l.phase && r.watchdog == l.watchdog
  {
    if n > 0 {
      assert Steps(n)[..n - 1] == Steps(n - 1);
      PhaseStays(b, l, n - 1);
    }
  }

  /** In radians the travel is 135 degrees either way, to within half a microstep. */
  lemma TravelInRadians(b: Board, position: int)
    requires BoardOk(b) && InTravel(b, position)
    ensures Abs(Angle(b, position - b.boot)) <= AngleLimit(b) + b.pi / b.perRev as real
  {
    hide LRound, LimitMicrosteps;
    LimitIsThreeEighths(b);
    var n := b.perRev as real;
    var k := Abs((position - b.boot) as real);
    assert k <= 0.375 * n + 0.5;
    AngleScales(b, k, 0.375 * n + 0.5);
    AngleOfAbs(b, position - b.boot);
    assert 2.0 * b.pi * (0.375 * n + 0.5) == 0.75 * b.pi * n + b.pi;
    SumOverN(0.75 * b.pi, b.pi, n);
  }

  lemma AngleOfAbs(b: Board, m: int)
    requires BoardOk(b)
    ensures Abs(Angle(b, m)) == 2.0 * b.pi * Abs(m as real) / b.perRev as real
  {
    var n := b.perRev as real;
    var x := 2.0 * b.pi * m as real;
    if m >= 0 {
      assert x >= 0.0;
      assert x / n >= 0.0;
    } else {
      assert x < 0.0;
      assert x / n < 0.0;
      assert -(x / n) == (-x) / n;
      assert -x == 2.0 * b.pi * (-(m as real));
    }
  }

  lemma AngleScales(b: Board, k: real, limit: real)
    requires BoardOk(b) && k <= limit
    ensures 2.0 * b.pi * k / b.perRev as real <= 2.0 * b.pi * limit / b.perRev as real
  {
    var n := b.perRev as real;
    var x, y := 2.0 * b.pi * k, 2.0 * b.pi * limit;
    assert x <= y;
    assert x / n <= y / n;
  }

  lemma SumOverN(x: real, y: real, n: real)
    requires n > 0.0
    ensures (x * n + y) / n == x + y / n
  {
    assert (x * n + y) / n == x * n / n + y / n;
  }

  // ---- what the watchdog guarantees ----------------------------------------------------------------

  /** A position that could be read shows as its distance from the boot position, in radians; otherwise the
      loop keeps the angle it had. */
  lemma ObservedAngle(b: Board, l: Loop, ok: bool)
    requires BoardOk(b) && l.phase.Top?
    ensures var r := Next(b, l, Observe(ok));
            && r == l.(angle := r.angle, phase := Commanding) && (!ok ==> r.angle == l.angle)
            && (ok ==> r.angle * b.perRev as real == 2.0 * b.pi * (l.driver.position - b.boot) as real)
  {
    var n := b.perRev as real;
    var x, y := 2.0 * b.pi * l.driver.position as real, 2.0 * b.pi * b.boot as real;
    assert (x / n - y / n) * n == x - y;
    assert (l.driver.position - b.boot) as real == l.driver.position as real - b.boot as real;
  }

  /** One control period integrates the acceleration over 10 ms: from the velocity held, or from 0 when no
      command has come for more than 20 cycles, to at most 7 rad/s either way, and to 0 instead of any
      velocity further out at 135 degrees or beyond. */
  lemma OnePeriodIntegrates(b: Board, l: Loop, input: Input)
    requires BoardOk(b) && l.phase.Commanding?
    ensures var r, stale := Next(b, l, Command(input)), input.count == l.watchdog.lastCount && l.watchdog.cycles >= 20;
            var start := if stale then 0.0 else l.watchdog.velocity;
            var v := start + r.watchdog.acceleration / 100.0;
            var capped := if v < -7.0 then -7.0 else if v > 7.0 then 7.0 else v;
            var outward := (l.angle >= 0.75 * b.pi && capped > 0.0) || (l.angle <= -0.75 * b.pi && capped < 0.0);
            && r.watchdog.velocity == (if outward then 0.0 else capped)
            && r == l.(watchdog := r.watchdog, phase := Steering)
  {
    assert AngleLimit(b) == 0.75 * b.pi;
  }

  /** What becomes of the velocity at the driver: the motor is stopped when it is 0 or too slow or too fast
      to step at, and otherwise set to turn at it; refused calls leave the driver as it was. */
  lemma DriveOutcome(b: Board, l: Loop, stopOk: bool, intervalOk: bool)
    requires BoardOk(b) && l.phase.Steering? && Abs(l.watchdog.velocity) <= 7.0
    ensures var r, v := Next(b, l, Drive(stopOk, intervalOk)), l.watchdog.velocity;
            var steps := v != 0.0 && Steppable(b, v);
            && r.watchdog == l.watchdog && r.angle == l.angle && r.driver.position == l.driver.position
            && (r.phase.Aiming? <==> steps && intervalOk) && (r.phase.Top? <==> !(steps && intervalOk))
            && (steps && intervalOk ==> r.driver.target == l.driver.target && TurnsAt(b, v, r.driver.interval))
            && (!steps && stopOk ==> r.driver == l.driver.(target := None))
            && (!(steps && intervalOk) && !(!steps && stopOk) ==> r.driver == l.driver)
  {
    hide IntervalAllowed, Interval, Steppable, TurnsAt;
    var v := l.watchdog.velocity;
    if v != 0.0 {
      AllowedMeansSteppable(b, v);
      if Steppable(b, v) { IntervalTurns(b, v); }
    }
  }

  /** The driver takes one step nearer to its target and stays there. */
  lemma StepOutcome(d: Driver)
    ensures var r := StepOnce(d);
            && r == d.(position := r.position)
            && (d.target.None? ==> r.position == d.position)
            && (d.target.Some? ==>
                  var before, after_ := d.target.value - d.position, d.target.value - r.position;
                  if before == 0 then after_ == 0 else after_ == if before > 0 then before - 1 else before + 1)
  {}

  /** The velocity the loop holds never exceeds the maximum. */
  lemma {:induction false} VelocityIsBounded(b: Board, count: uint32, events: seq<Event>)
    requires BoardOk(b)
    ensures -MAX_VELOCITY <= RunLoop(b, count, events).watchdog.velocity <= MAX_VELOCITY
  {
    hide Angle, MoveTarget, IntervalAllowed, Interval;
    if events != [] { VelocityIsBounded(b, count, events[..|events| - 1]); }
  }

  /** In every state of every run in which the loop has acted on the angle it saw last: at the limit it
      commands no velocity further out. */
  lemma {:induction false} NeverPushesIntoTheLimit(b: Board, count: uint32, events: seq<Event>)
    requires BoardOk(b)
    ensures var l := RunLoop(b, count, events);
            !l.phase.Commanding? ==>
              && (l.angle >= AngleLimit(b) ==> l.watchdog.velocity <= 0.0)
              && (l.angle <= -AngleLimit(b) ==> l.watchdog.velocity >= 0.0)
  {
    hide Angle, MoveTarget, IntervalAllowed, Interval, AngleLimit, Watched, Clamp;
    if events != [] { NeverPushesIntoTheLimit(b, count, events[..|events| - 1]); }
  }

  /** The inputs a run has taken in, in order. */
  function Inputs(b: Board, count: uint32, events: seq<Event>): seq<Input>
    requires BoardOk(b)
  {
    if events == [] then []
    else
      var init, last := events[..|events| - 1], events[|events| - 1];
      if last.Command? && RunLoop(b, count, init).phase.Commanding? then Inputs(b, count, init) + [last.input]
      else Inputs(b, count, init)
  }

  /** The count the loop last looked at. */
  function SeenCount(count: uint32, inputs: seq<Input>): uint32 {
    if inputs == [] then count else inputs[|inputs| - 1].count
  }

  /** How many cycles in a row, up to now, saw no newly accepted command. */
  function Silence(count: uint32, inputs: seq<Input>): nat {
    if inputs == [] then 0
    else
      var init, last := inputs[..|inputs| - 1], inputs[|inputs| - 1];
      if last.count != SeenCount(count, init) then 0 else Silence(count, init) + 1
  }

  /** The acceleration that should be acting: that of the last accepted command for 20 silent cycles,
      then none. A command that was counted but could not be read leaves the one before it in
      place. */
  function Acting(count: uint32, inputs: seq<Input>): real {
    if inputs == [] then 0.0
    else
      var init, last := inputs[..|inputs| - 1], inputs[|inputs| - 1];
      if last.count != SeenCount(count, init) && last.command.Some? then last.command.value
      else if Silence(count, inputs) > TIMEOUT_CYCLES then 0.0
      else Acting(count, init)
  }

  /** After an accepted acceleration and k silent cycles it acts if k is at most 20 and nothing does
      otherwise. */
  lemma {:induction false} ActsForTwentySilentCycles(count: uint32, inputs: seq<Input>, a: real, k: nat)
    requires k < |inputs|
    requires var at := |inputs| - 1 - k;
             inputs[at].count != SeenCount(count, inputs[..at]) && inputs[at].command == Some(a)
    requires forall i :: |inputs| - k <= i < |inputs| ==> inputs[i].count == inputs[i - 1].count
    ensures Silence(count, inputs) == k
    ensures Acting(count, inputs) == if k <= TIMEOUT_CYCLES then a else 0.0
  {
    if k > 0 {
      var init := inputs[..|inputs| - 1];
      assert init[..|inputs| - 1 - k] == inputs[..|inputs| - 1 - k];
      assert inputs[|inputs| - 1].count == inputs[|inputs| - 2].count;
      ActsForTwentySilentCycles(count, init, a, k - 1);
    }
  }

  predicate Tracks(w: Watchdog, count: uint32, inputs: seq<Input>) {
    && w.lastCount == SeenCount(count, inputs)
    && w.cycles == Min(Silence(count, inputs), TIMEOUT_CYCLES)
    && w.acceleration == Acting(count, inputs)
    && (Silence(count, inputs) > TIMEOUT_CYCLES ==> w.velocity == 0.0)
  }

  lemma TracksOneMore(w: Watchdog, count: uint32, inputs: seq<Input>, input: Input)
    requires Tracks(w, count, inputs)
    ensures Tracks(Watched(w, input), count, inputs + [input])
  {
    assert (inputs + [input])[..|inputs|] == inputs;
  }

  lemma IntegrationKeepsTrack(w: Watchdog, count: uint32, inputs: seq<Input>, limit: real, angle: real)
    requires Tracks(w, count, inputs)
    ensures Tracks(Integrated(w, limit, angle), count, inputs)
  {
    hide SeenCount;
    if Silence(count, inputs) > TIMEOUT_CYCLES { StaleMeansNone(count, inputs); }
  }

  lemma {:induction false} StaleMeansNone(count: uint32, inputs: seq<Input>)
    requires Silence(count, inputs) > TIMEOUT_CYCLES
    ensures Acting(count, inputs) == 0.0
  {}

  /** In every run the commanded acceleration is the one that should be acting; from the 21st silent
      cycle to the next accepted command the velocity is zero as well. */
  lemma {:induction false} StaleCommandsStop(b: Board, count: uint32, events: seq<Event>)
    requires BoardOk(b)
    ensures Tracks(RunLoop(b, count, events).watchdog, count, Inputs(b, count, events))
  {
    hide Angle, Tracks, Integrated, Watched, MoveTarget, IntervalAllowed, Interval, AngleLimit;
    if events == [] {
      TracksAtBoot(count);
    } else {
      var init, last := events[..|events| - 1], events[|events| - 1];
      StaleCommandsStop(b, count, init);
      var l := RunLoop(b, count, init);
      if last.Command? && l.phase.Commanding? {
        TracksOneMore(l.watchdog, count, Inputs(b, count, init), last.input);
        IntegrationKeepsTrack(Watched(l.watchdog, last.input), count, Inputs(b, count, events), AngleLimit(b), l.angle);
      }
    }
  }

  lemma TracksAtBoot(count: uint32)
    ensures Tracks(Watchdog(count, 0, 0.0, 0.0), count, [])
  {}

  /** The integrator over several cycles with the same acceleration. */
  function IntegratedOver(w: Watchdog, limit: real, angles: seq<real>): (r: Watchdog)
    ensures r.acceleration == w.acceleration
  {
    if angles == [] then w
    else Integrated(IntegratedOver(w, limit, angles[..|angles| - 1]), limit, angles[|angles| - 1])
  }

  /** n cycles' worth of velocity, held to the maximum. */
  function Ramped(v: real, step: real, n: nat): real {
    Clamp(v + step * n as real, -MAX_VELOCITY, MAX_VELOCITY)
  }

  /** Away from the travel limit n control periods add 0.01 s times the acting acceleration each, up to
      7 rad/s. */
  lemma VelocityRamps(w: Watchdog, limit: real, angles: seq<real>)
    requires -MAX_VELOCITY <= w.velocity <= MAX_VELOCITY
    requires forall i :: 0 <= i < |angles| ==> -limit < angles[i] < limit
    ensures IntegratedOver(w, limit, angles).velocity
         == Clamp(w.velocity + 0.01 * w.acceleration * |angles| as real, -7.0, 7.0)
  {
    RampsByIncrements(w, limit, angles);
    assert Increment(w.acceleration) == 0.01 * w.acceleration;
  }

  lemma {:induction false} RampsByIncrements(w: Watchdog, limit: real, angles: seq<real>)
    requires -MAX_VELOCITY <= w.velocity <= MAX_VELOCITY
    requires forall i :: 0 <= i < |angles| ==> -limit < angles[i] < limit
    ensures IntegratedOver(w, limit, angles).velocity
         == Ramped(w.velocity, Increment(w.acceleration), |angles|)
  {
    hide Ramped, Increment;
    var n := |angles|;
    if n > 0 {
      RampsByIncrements(w, limit, angles[..n - 1]);
      RampsOneMore(w.velocity, Increment(w.acceleration), n);
      assert -limit < angles[n - 1] < limit;
    } else {
      RampsNone(w.velocity, Increment(w.acceleration));
    }
  }

  lemma RampsNone(v: real, step: real)
    requires -MAX_VELOCITY <= v <= MAX_VELOCITY
    ensures Ramped(v, step, 0) == v
  {
    assert step * 0.0 == 0.0;
  }

  lemma RampsOneMore(v: real, step: real, n: nat)
    requires n > 0 && -MAX_VELOCITY <= v <= MAX_VELOCITY
    ensures Clamp(Ramped(v, step, n - 1) + step, -MAX_VELOCITY, MAX_VELOCITY) == Ramped(v, step, n)
  {
    var m := (n - 1) as real;
    assert step * n as real == step * m + step;
    if step >= 0.0 {
      NotNegative(step, m);
    } else {
      NotNegative(-step, m);
      assert -step * m == -(step * m);
    }
    ClampedTwice(v, step * m, step);
  }

  lemma ClampedTwice(v: real, x: real, y: real)
    requires -MAX_VELOCITY <= v <= MAX_VELOCITY
    requires (x >= 0.0 && y >= 0.0) || (x <= 0.0 && y <= 0.0)
    ensures Clamp(Clamp(v + x, -MAX_VELOCITY, MAX_VELOCITY) + y, -MAX_VELOCITY, MAX_VELOCITY)
         == Clamp(v + (x + y), -MAX_VELOCITY, MAX_VELOCITY)
  {}

  // ---- whole cycles ------------------------------------------------------------------------------

  /** The outcomes of a cycle's driver calls, and how often the driver steps before each of the later
      ones. */
  datatype Calls = Calls(position: bool, stop: bool, setInterval: bool, actual: bool, moveTo: bool)

  datatype Ticks = Ticks(beforeCommand: nat, beforeAim: nat, beforeMove: nat)

  function Steps(n: nat): (es: seq<Event>)
    ensures |es| == n && forall i :: 0 <= i < n ==> es[i] == Step
  {
    seq<Event>(n, _ => Step)
  }

  function SteerEvents(calls: Calls, ticks: Ticks): seq<Event> {
    [Drive(calls.stop, calls.setInterval)] + Steps(ticks.beforeAim) + [Aim(calls.actual)]
    + Steps(ticks.beforeMove) + [Move(calls.moveTo)]
  }

  function CycleEvents(input: Input, calls: Calls, ticks: Ticks): seq<Event> {
    [Observe(calls.position)] + Steps(ticks.beforeCommand) + [Command(input)] + SteerEvents(calls, ticks)
  }

  lemma {:induction false} RunsOn(b: Board, l: Loop, before: seq<Event>, after_: seq<Event>)
    requires BoardOk(b)
    ensures RunFrom(b, l, before + after_) == RunFrom(b, RunFrom(b, l, before), after_)
  {
    hide Next;
    if after_ == [] {
      assert before + after_ == before;
    } else {
      assert (before + after_)[..|before + after_| - 1] == before + after_[..|after_| - 1];
      RunsOn(b, l, before, after_[..|after_| - 1]);
    }
  }

  lemma RunsOne(b: Board, l: Loop, e: Event)
    requires BoardOk(b)
    ensures RunFrom(b, l, [e]) == Next(b, l, e)
  {
    hide Next;
    assert [e][..0] == [];
    assert RunFrom(b, l, []) == l;
  }
}
