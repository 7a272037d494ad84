/** The firmware's control loop and stepper as objects, each method proved to take the model's step. */
module FirmwareLoop {
  import opened Bytes
  import opened RealMath
  import opened FirmwareModel

  /** The stepper controller of the driver; each call reports whether it succeeded. */
  class Stepper {
    var position: int
    var target: Option<int>
    var interval: int

    ghost function View(): Driver
      reads this
    {
      Driver(position, target, interval)
    }

    constructor (at: int)
      ensures View() == Driver(at, None, 0)
    {
      position, target, interval := at, None, 0;
    }

    method Tick()
      modifies `position
      ensures View() == StepOnce(old(View()))
    {
      if target.Some? && target.value > position { position := position + 1; }
      else if target.Some? && target.value < position { position := position - 1; }
    }

    method Stop(works: bool) returns (ok: bool)
      modifies `target
      ensures ok == works && View() == if ok then old(View()).(target := None) else old(View())
    {
      if works { target := None; }
      ok := works;
    }

    method SetMicrostepInterval(works: bool, ns: int) returns (ok: bool)
      modifies `interval
      ensures ok == works && View() == if ok then old(View()).(interval := ns) else old(View())
    {
      if works { interval := ns; }
      ok := works;
    }

    method MoveTo(works: bool, at: int) returns (ok: bool)
      modifies `target
      ensures ok == works && View() == if ok then old(View()).(target := Some(at)) else old(View())
    {
      if works { target := Some(at); }
      ok := works;
    }
  }

  class ControlLoop {
    const board: Board
    const stepper: Stepper
    const minPosition: int
    const maxPosition: int
    var lastCommandCount: uint32
    var cyclesSinceCommand: nat
    var commandedAcceleration: real
    var stepperAngularVelocity: real
    var stepperAngle: real
    const stepperAngleOffset: real
    ghost var phase: Phase

    ghost function View(): Loop
      reads this, stepper
    {
      Loop(Watchdog(lastCommandCount, cyclesSinceCommand, commandedAcceleration, stepperAngularVelocity),
           stepperAngle, stepper.View(), phase)
    }

    predicate Valid() {
      && BoardOk(board)
      && minPosition == MinPosition(board) && maxPosition == MaxPosition(board)
      && stepperAngleOffset == Angle(board, board.boot)
    }

    /** main up to its loop: the boot position becomes the zero. */
    constructor (pi: real, perRev: nat, stepper: Stepper, count: uint32)
      requires pi > 0.0 && perRev > 0 && stepper.target == None && stepper.interval == 0
      ensures Valid() && this.stepper == stepper && board == Board(pi, perRev, stepper.position)
      ensures View() == Boot(board, count)
    {
      hide LimitMicrosteps;
      var b := Board(pi, perRev, stepper.position);
      board := b;
      this.stepper := stepper;
      var limit := LimitMicrosteps(b);
      minPosition, maxPosition := stepper.position - limit, stepper.position + limit;
      stepperAngleOffset := Angle(b, stepper.position);
      lastCommandCount, cyclesSinceCommand := count, 0;
      commandedAcceleration, stepperAngularVelocity, stepperAngle := 0.0, 0.0, 0.0;
      phase := Top;
    }

    /** The driver goes on stepping while the loop is elsewhere. */
    method Elapse(n: nat)
      requires BoardOk(board)
      modifies stepper`position
      ensures View() == RunFrom(board, old(View()), Steps(n))
    {
      hide StepOnce;
      for i := 0 to n
        invariant View() == RunFrom(board, old(View()), Steps(i))
      {
        stepper.Tick();
        assert Steps(i + 1)[..i] == Steps(i);
      }
    }

    /** The first read of the position in a turn of the loop. */
    method ObservePosition(ok: bool)
      requires Valid() && phase == Top
      modifies `stepperAngle, `phase
      ensures View() == Next(board, old(View()), Observe(ok)) && phase == Commanding
    {
      hide Angle;
      if ok { stepperAngle := Angle(board, stepper.position) - stepperAngleOffset; }
      phase := Commanding;
    }

    /** enforce_stepper_hard_stop */
    method EnforceHardStop(angle: real)
      modifies `stepperAngularVelocity
      ensures stepperAngularVelocity == HardStop(AngleLimit(board), angle, old(stepperAngularVelocity))
    {
      if (angle >= AngleLimit(board) && stepperAngularVelocity > 0.0)
         || (angle <= -AngleLimit(board) && stepperAngularVelocity < 0.0) {
        stepperAngularVelocity := 0.0;
      }
    }

    /** The watchdog and the integrator. */
    method TakeCommand(input: Input)
      requires Valid() && phase == Commanding
      modifies `lastCommandCount, `cyclesSinceCommand, `commandedAcceleration, `stepperAngularVelocity, `phase
      ensures View() == Next(board, old(View()), Command(input)) && phase == Steering
    {
      hide AngleLimit;
      if input.count != lastCommandCount {
        lastCommandCount := input.count;
        cyclesSinceCommand := 0;
        if input.command.Some? { commandedAcceleration := input.command.value; }
      } else if cyclesSinceCommand < TIMEOUT_CYCLES {
        cyclesSinceCommand := cyclesSinceCommand + 1;
      } else if commandedAcceleration != 0.0 || stepperAngularVelocity != 0.0 {
        commandedAcceleration := 0.0;
        stepperAngularVelocity := 0.0;
      }
      stepperAngularVelocity := stepperAngularVelocity + Increment(commandedAcceleration);
      stepperAngularVelocity := Clamp(stepperAngularVelocity, -MAX_VELOCITY, MAX_VELOCITY);
      EnforceHardStop(stepperAngle);
      phase := Steering;
    }

    /** set_stepper_angular_vel up to the point from which it goes on to move the motor, if it does. */
    method StopOrSetInterval(v: real, calls: Calls) returns (goesOn: bool)
      requires Valid() && phase == Steering && v == stepperAngularVelocity
      modifies `phase, stepper`target, stepper`interval
      ensures View() == Next(board, old(View()), Drive(calls.stop, calls.setInterval))
      ensures phase == if goesOn then Aiming else Top
    {
      hide LRound, LimitMicrosteps, FastestInterval, MicrostepsPerSecond, Clamp;
      phase := Top;
      if v == 0.0 {
        var _ := stepper.Stop(calls.stop);
        return false;
      }
      Moves(board, v);
      var intervalNs := 1000000000.0 / MicrostepsPerSecond(board, v);
      if intervalNs < MIN_INTERVAL || intervalNs > MAX_INTERVAL {
        var _ := stepper.Stop(calls.stop);
        return false;
      }
      intervalNs := Clamp(intervalNs, FastestInterval(board) as real, MAX_INTERVAL);
      goesOn := stepper.SetMicrostepInterval(calls.setInterval, intervalNs.Floor);
      if goesOn { phase := Aiming; }
    }

    /** Its last part: where to send the motor from the position it has read. */
    method SendMotor(v: real, actual: int, ok: bool)
      requires Valid() && phase == Moving(actual) && v == stepperAngularVelocity
      modifies `phase, stepper`target
      ensures View() == Next(board, old(View()), Move(ok)) && phase == Top
    {
      hide LRound, LimitMicrosteps, MicrostepsPerSecond;
      var microstepsPerSec := MicrostepsPerSecond(board, v);
      var signed := if v > 0.0 then microstepsPerSec else -microstepsPerSec;
      var projected := signed * CONTROL_PERIOD * PROJECTION_PERIODS;
      var target := Clamp(actual as real + projected, minPosition as real, maxPosition as real);
      var _ := stepper.MoveTo(ok, LRound(target));
      phase := Top;
    }

    /** set_stepper_angular_vel, with the driver stepping between its calls. */
    method SetStepperAngularVel(v: real, calls: Calls, ticks: Ticks)
      requires Valid() && phase == Steering && v == stepperAngularVelocity
      modifies `phase, stepper
      ensures View() == RunFrom(board, old(View()), SteerEvents(calls, ticks)) && phase == Top
    {
      hide Next, RunFrom, Steps;
      ghost var l, es := View(), [Drive(calls.stop, calls.setInterval)];
      RunsOne(board, l, es[0]);
      var goesOn := StopOrSetInterval(v, calls);
      RunsOn(board, l, es, Steps(ticks.beforeAim));
      es := es + Steps(ticks.beforeAim);
      Elapse(ticks.beforeAim);
      RunsOn(board, l, es, [Aim(calls.actual)]);
      RunsOne(board, View(), Aim(calls.actual));
      es := es + [Aim(calls.actual)];
      Turn(board, View(), calls);
      var actual := 0;
      if goesOn {
        if calls.actual { actual := stepper.position; }
        phase := Moving(actual);
      }
      RunsOn(board, l, es, Steps(ticks.beforeMove));
      es := es + Steps(ticks.beforeMove);
      Elapse(ticks.beforeMove);
      RunsOn(board, l, es, [Move(calls.moveTo)]);
      RunsOne(board, View(), Move(calls.moveTo));
      Turn(board, View(), calls);
      if goesOn { SendMotor(v, actual, calls.moveTo); }
    }

    /** One turn of the loop in main. */
    method TakeCycle(input: Input, calls: Calls, ticks: Ticks)
      requires Valid() && phase == Top
      modifies this, stepper
      ensures Valid() && phase == Top
      ensures View() == RunFrom(board, old(View()), CycleEvents(input, calls, ticks))
    {
      hide Next, RunFrom, Steps, SteerEvents;
      ghost var l, es := View(), [Observe(calls.position)];
      RunsOne(board, l, es[0]);
      ObservePosition(calls.position);
      RunsOn(board, l, es, Steps(ticks.beforeCommand));
      es := es + Steps(ticks.beforeCommand);
      Elapse(ticks.beforeCommand);
      RunsOn(board, l, es, [Command(input)]);
      RunsOne(board, View(), Command(input));
      es := es + [Command(input)];
      TakeCommand(input);
      RunsOn(board, l, es, SteerEvents(calls, ticks));
      SetStepperAngularVel(stepperAngularVelocity, calls, ticks);
    }
  }

  /** What the last two driver calls of a cycle do in turn, and that they do nothing out of turn. */
  lemma Turn(b: Board, l: Loop, calls: Calls)
    requires BoardOk(b)
    ensures Next(b, l, Aim(calls.actual)) == if l.phase.Aiming? then Aimed(l, calls.actual) else l
    ensures !l.phase.Moving? ==> Next(b, l, Move(calls.moveTo)) == l
  {}
}
