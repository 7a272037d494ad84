/**
 The encoder thread of demos/inverted_pendulum/inverted_pendulum_tier2/src/main.cpp over the reals,
 with pi a parameter: the wrapped angle, and the velocity filter under any sample times.
 */
module Encoder {
  import opened Bytes
  import opened RealMath

  /** wrap_angle */
  function WrapAngle(pi: real, a: real): real {
    if a > pi then a - 2.0 * pi else if a <= -pi then a + 2.0 * pi else a
  }

  /** The pendulum angle for a raw reading, with the reading at calibration as the zero. */
  function EncoderAngle(pi: real, raw: real, offset: real): real
    requires pi > 0.0
  {
    WrapAngle(pi, Fmod(raw - offset + 3.0 * pi, 2.0 * pi))
  }

  predicate Principal(pi: real, a: real) { -pi < a <= pi }

  lemma OneTurn(y: real, k: int)
    ensures y * (k + 1) as real == y * k as real + y
    ensures y * (k - 1) as real == y * k as real - y
  {}

  /** For every reading the angle lies in (-pi, pi] and is raw - offset + pi up to whole turns. */
  lemma EncoderAngleIsPrincipal(pi: real, raw: real, offset: real) returns (turns: int)
    requires pi > 0.0
    ensures Principal(pi, EncoderAngle(pi, raw, offset))
    ensures EncoderAngle(pi, raw, offset) == raw - offset + pi + 2.0 * pi * turns as real
  {
    var x, y := raw - offset + 3.0 * pi, 2.0 * pi;
    var k := FmodRange(x, y);
    var f := Fmod(x, y);
    OneTurn(y, k);
    turns := if f > pi then k else if f <= -pi then k + 2 else k + 1;
    OneTurn(y, k + 1);
  }

  /** Two principal angles that differ by whole turns are equal. */
  lemma PrincipalIsUnique(pi: real, x: real, y: real, k: int)
    requires pi > 0.0 && Principal(pi, x) && Principal(pi, y) && x == y + 2.0 * pi * k as real
    ensures x == y
  {
    var t := 2.0 * pi;
    TurnsAreLong(t, k);
    NoTurnBetween(pi, x, y, t, t * k as real);
  }

  lemma NoTurnBetween(pi: real, x: real, y: real, t: real, turn: real)
    requires t == 2.0 * pi && Principal(pi, x) && Principal(pi, y) && x == y + turn
    requires turn >= t || turn <= -t || turn == 0.0
    ensures x == y
  {}

  lemma TurnsAreLong(t: real, k: int)
    requires t > 0.0
    ensures t * k as real >= t || t * k as real <= -t || t * k as real == 0.0
  {
    if k >= 1 {
      assert t * k as real >= t * 1.0;
    } else if k <= -1 {
      assert t * k as real <= t * -1.0;
    }
  }

  lemma TurnsAdd(t: real, a: int, b: int, c: int)
    ensures t * (a + b - c) as real == t * a as real + t * b as real - t * c as real
  {
    assert (a + b - c) as real == a as real + b as real - c as real;
  }

  /** Between two readings less than half a turn apart, the wrapped difference of their angles is the
      distance travelled, whichever way and across whichever wrap. */
  lemma WrappedDifference(pi: real, offset: real, raw0: real, raw1: real, moved: real, turns: int)
    requires pi > 0.0 && -pi < moved < pi && raw1 == raw0 + moved + 2.0 * pi * turns as real
    ensures WrapAngle(pi, EncoderAngle(pi, raw1, offset) - EncoderAngle(pi, raw0, offset)) == moved
  {
    hide EncoderAngle;
    var k0 := EncoderAngleIsPrincipal(pi, raw0, offset);
    var k1 := EncoderAngleIsPrincipal(pi, raw1, offset);
    var d := EncoderAngle(pi, raw1, offset) - EncoderAngle(pi, raw0, offset);
    var y, k := 2.0 * pi, turns + k1 - k0;
    TurnsAdd(y, turns, k1, k0);
    OneTurn(y, k);
    PrincipalIsUnique(pi, WrapAngle(pi, d), moved, if d > pi then k - 1 else if d <= -pi then k + 1 else k);
  }

  // ---- the filter ------------------------------------------------------------------------------

  /** kVelocityFilterTauSec */
  const TAU: real := (1.0 - 0.35) / (0.35 * 400.0)

  /** One update of the velocity estimate. */
  function Filtered(velocity: real, raw: real, dt: real): real
    requires dt > 0.0
  {
    var alpha := dt / (TAU + dt);
    alpha * raw + (1.0 - alpha) * velocity
  }

  /** The error against a constant velocity shrinks by TAU / (TAU + dt) and keeps its sign. */
  lemma FilterShrinksError(velocity: real, c: real, dt: real)
    requires dt > 0.0
    ensures (Filtered(velocity, c, dt) - c) * (TAU + dt) == (velocity - c) * TAU
  {
    var alpha := dt / (TAU + dt);
    assert alpha * (TAU + dt) == dt;
    assert Filtered(velocity, c, dt) - c == (1.0 - alpha) * (velocity - c);
    assert (1.0 - alpha) * (TAU + dt) == TAU;
    calc {
      (Filtered(velocity, c, dt) - c) * (TAU + dt);
      ((1.0 - alpha) * (velocity - c)) * (TAU + dt);
      ((1.0 - alpha) * (TAU + dt)) * (velocity - c);
    }
  }

  /** At the nominal 400 Hz the filter weighs the new velocity by 0.35. */
  lemma FilterAtNominalRate(velocity: real, raw: real)
    ensures Filtered(velocity, raw, 1.0 / 400.0) == 0.35 * raw + 0.65 * velocity
  {
    assert TAU + 1.0 / 400.0 == 1.0 / (0.35 * 400.0);
    assert (1.0 / 400.0) / (1.0 / (0.35 * 400.0)) == 0.35;
  }

  predicate WithinDecay(error: real, initial: real, elapsed: real) {
    elapsed >= 0.0 && Abs(error) * (TAU + elapsed) <= Abs(initial) * TAU
  }

  lemma AbsScales(x: real, a: real, y: real, b: real)
    requires a > 0.0 && b > 0.0 && x * a == y * b
    ensures Abs(x) * a == Abs(y) * b
  {
    SignOfProduct(x, a);
    SignOfProduct(y, b);
  }

  /** The product of the factors TAU / (TAU + dt) is at most TAU / (TAU + the sum of the dt). */
  lemma DecayComposes(e: real, e': real, initial: real, elapsed: real, dt: real)
    requires dt > 0.0 && WithinDecay(e, initial, elapsed) && e' * (TAU + dt) == e * TAU
    ensures WithinDecay(e', initial, elapsed + dt)
  {
    AbsScales(e', TAU + dt, e, TAU);
    var x, x' := Abs(e), Abs(e');
    assert x' * TAU + x' * dt == x * TAU;
    assert x' * dt >= 0.0;
    assert x' <= x;
    assert x' * elapsed <= x * elapsed;
    assert x' * (TAU + (elapsed + dt)) == x' * (TAU + dt) + x' * elapsed;
    assert x * (TAU + elapsed) == x * TAU + x * elapsed;
  }

  // ---- the sampling thread ------------------------------------------------------------------------

  datatype EncoderState = EncoderState(angle: real, velocity: real)

  datatype Sampler = Sampler(
    offset: real, prevAngle: real, havePrev: bool, ready: bool, prevTime: uint32, state: EncoderState)

  /** Seconds between two readings of the free-running 32-bit microsecond clock. */
  function Seconds(now: uint32, before: uint32): (dt: real)
    ensures dt >= 0.0
  {
    ((now - before) % WORD_RANGE) as real / 1000000.0
  }

  /** One pass of the thread's loop; a failed reading leaves everything for the next one. */
  function Sampled(pi: real, s: Sampler, reading: Option<real>, now: uint32): Sampler
    requires pi > 0.0
  {
    if reading.None? then s
    else
      var angle := EncoderAngle(pi, reading.value, s.offset);
      var dt := Seconds(now, s.prevTime);
      if s.havePrev && dt > 0.0 then
        var raw := WrapAngle(pi, angle - s.prevAngle) / dt;
        Sampler(s.offset, angle, true, true, now, EncoderState(angle, Filtered(s.state.velocity, raw, dt)))
      else
        s.(prevAngle := angle, havePrev := true, prevTime := now, state := s.state.(angle := angle))
  }

  /** What one pass leaves: the angle of a reading that worked is reported and remembered with its time; the
      thread is ready once a second one came at another time, and until then the velocity is as it was. */
  lemma SampleOutcome(pi: real, s: Sampler, raw: real, now: uint32)
    requires pi > 0.0
    ensures var r, again := Sampled(pi, s, Some(raw), now), s.havePrev && now != s.prevTime;
            && r.state.angle == EncoderAngle(pi, raw, s.offset) && r.prevAngle == r.state.angle
            && r.havePrev && r.prevTime == now && r.offset == s.offset
            && (r.ready <==> s.ready || again)
            && (!again ==> r.state.velocity == s.state.velocity)
    ensures Sampled(pi, s, None, now) == s
  {
    hide EncoderAngle, WrapAngle, Filtered;
    ClockMoved(now, s.prevTime);
  }

  lemma ClockMoved(now: uint32, before: uint32)
    ensures Seconds(now, before) > 0.0 <==> now != before
  {
    if now < before { assert (now - before) % WORD_RANGE == now - before + WORD_RANGE; }
  }

  /** A reading taken at some microsecond since power-on; None when the sensor failed. */
  datatype Reading = Reading(at: nat, raw: Option<real>)

  function SampleAll(pi: real, s: Sampler, rs: seq<Reading>): Sampler
    requires pi > 0.0
  {
    if rs == [] then s
    else Sampled(pi, SampleAll(pi, s, rs[..|rs| - 1]), rs[|rs| - 1].raw, rs[|rs| - 1].at % WORD_RANGE)
  }

  /** The last reading that worked. */
  function LastRaw(rs: seq<Reading>): Option<real> {
    if rs == [] then None
    else if rs[|rs| - 1].raw.Some? then rs[|rs| - 1].raw
    else LastRaw(rs[..|rs| - 1])
  }

  /** Over any readings the reported angle is that of the last one that worked, whatever the clock did. */
  lemma {:induction false} ReportsTheLastAngle(pi: real, s: Sampler, rs: seq<Reading>)
    requires pi > 0.0
    ensures var r := SampleAll(pi, s, rs);
            && r.offset == s.offset
            && (LastRaw(rs).Some? ==> r.havePrev && r.state.angle == EncoderAngle(pi, LastRaw(rs).value, s.offset))
            && (LastRaw(rs).None? ==> r == s)
  {
    hide Sampled, EncoderAngle;
    if rs != [] {
      var init, last := rs[..|rs| - 1], rs[|rs| - 1];
      ReportsTheLastAngle(pi, s, init);
      SampleOutcome(pi, SampleAll(pi, s, init), OrZero(last.raw), last.at % WORD_RANGE);
    }
  }

  function OrZero(x: Option<real>): real {
    if x.Some? then x.value else 0.0
  }

  /** The time of the last reading that worked. */
  function LastAt(start: nat, rs: seq<Reading>): nat {
    if rs == [] then start
    else if rs[|rs| - 1].raw.Some? then rs[|rs| - 1].at
    else LastAt(start, rs[..|rs| - 1])
  }

  function Travelled(c: real, start: nat, at: nat): real { c * ((at - start) as real / 1000000.0) }

  function Place(c: real, raw0: real, start: nat, at: nat): real { raw0 + Travelled(c, start, at) }

  predicate TurnsAway(pi: real, x: real, y: real, turns: int) {
    x == y + 2.0 * pi * turns as real
  }

  /** The pendulum turns at c from the angle raw0 at `start` on: every working reading shows where it
      is, up to whole turns; working readings come in order, less than half a turn and less than one
      clock wrap apart. */
  ghost predicate ConstantSpeed(pi: real, c: real, raw0: real, start: nat, rs: seq<Reading>) {
    forall i :: 0 <= i < |rs| && rs[i].raw.Some? ==>
      var before := LastAt(start, rs[..i]);
      && start <= before <= rs[i].at < before + WORD_RANGE
      && -pi < Travelled(c, before, rs[i].at) < pi
      && exists turns :: TurnsAway(pi, rs[i].raw.value, Place(c, raw0, start, rs[i].at), turns)
  }

  /** The raw angle a working reading at that time would show. */
  ghost predicate At(pi: real, s: Sampler, c: real, raw0: real, start: nat, at: nat)
    requires pi > 0.0 && start <= at
  {
    && s.havePrev && s.prevTime == at % WORD_RANGE
    && s.prevAngle == EncoderAngle(pi, Place(c, raw0, start, at), s.offset)
  }

  lemma WholeTurnsAway(pi: real, raw: real, raw': real, offset: real, turns: int)
    requires pi > 0.0 && raw' == raw + 2.0 * pi * turns as real
    ensures EncoderAngle(pi, raw', offset) == EncoderAngle(pi, raw, offset)
  {
    WrappedDifference(pi, offset, raw, raw', 0.0, turns);
    var k := EncoderAngleIsPrincipal(pi, raw, offset);
    var k' := EncoderAngleIsPrincipal(pi, raw', offset);
  }

  lemma ClockDifference(before: nat, at: nat)
    requires before <= at < before + WORD_RANGE
    ensures Seconds(at % WORD_RANGE, before % WORD_RANGE) == (at - before) as real / 1000000.0
  {
    assert (at % WORD_RANGE - before % WORD_RANGE) % WORD_RANGE == (at - before) % WORD_RANGE;
  }

  lemma TravelAdds(c: real, start: nat, before: nat, at: nat)
    requires start <= before <= at
    ensures Travelled(c, start, at) == Travelled(c, start, before) + Travelled(c, before, at)
  {
    var x, y := (before - start) as real / 1000000.0, (at - before) as real / 1000000.0;
    assert (at - start) as real / 1000000.0 == x + y;
    assert c * (x + y) == c * x + c * y;
  }

  lemma OneSample(pi: real, s: Sampler, c: real, raw0: real, start: nat, before: nat, raw: real, at: nat, turns: int,
                  e0: real)
    requires pi > 0.0 && start <= before <= at < before + WORD_RANGE
    requires At(pi, s, c, raw0, start, before) && -pi < Travelled(c, before, at) < pi
    requires TurnsAway(pi, raw, Place(c, raw0, start, at), turns)
    requires WithinDecay(s.state.velocity - c, e0, (before - start) as real / 1000000.0)
    ensures var r := Sampled(pi, s, Some(raw), at % WORD_RANGE);
            && At(pi, r, c, raw0, start, at)
            && WithinDecay(r.state.velocity - c, e0, (at - start) as real / 1000000.0)
  {
    hide EncoderAngle, WrapAngle, Filtered, WithinDecay, Seconds;
    var dt := (at - before) as real / 1000000.0;
    var here, there := Place(c, raw0, start, before), Place(c, raw0, start, at);
    ClockDifference(before, at);
    TravelAdds(c, start, before, at);
    WholeTurnsAway(pi, there, raw, s.offset, turns);
    if at > before {
      WrappedDifference(pi, s.offset, here, there, c * dt, 0);
      assert c * dt / dt == c;
      FilterShrinksError(s.state.velocity, c, dt);
      DecayComposes(s.state.velocity - c, Filtered(s.state.velocity, c, dt) - c, e0,
                    (before - start) as real / 1000000.0, dt);
      assert (before - start) as real / 1000000.0 + dt == (at - start) as real / 1000000.0;
    }
  }

  lemma ConstantSpeedPrefix(pi: real, c: real, raw0: real, start: nat, rs: seq<Reading>)
    requires rs != [] && ConstantSpeed(pi, c, raw0, start, rs)
    ensures ConstantSpeed(pi, c, raw0, start, rs[..|rs| - 1])
  {
    var init := rs[..|rs| - 1];
    forall i | 0 <= i < |init| && init[i].raw.Some? ensures init[i] == rs[i] && init[..i] == rs[..i] {}
  }

  /** At constant speed, over any irregular and partly failing sample times, the velocity error is at
      most its initial value times TAU / (TAU + elapsed). */
  lemma {:induction false} VelocityErrorDecays(pi: real, s: Sampler, c: real, raw0: real, start: nat, rs: seq<Reading>)
    requires pi > 0.0 && s.havePrev && s.prevTime == start % WORD_RANGE
    requires s.prevAngle == EncoderAngle(pi, raw0, s.offset)
    requires ConstantSpeed(pi, c, raw0, start, rs)
    ensures var r, at := SampleAll(pi, s, rs), LastAt(start, rs);
            && start <= at && r.offset == s.offset && At(pi, r, c, raw0, start, at)
            && WithinDecay(r.state.velocity - c, s.state.velocity - c, (at - start) as real / 1000000.0)
  {
    hide EncoderAngle, Filtered;
    if rs == [] {
      assert Travelled(c, start, start) == 0.0;
    } else {
      var init, last := rs[..|rs| - 1], rs[|rs| - 1];
      ConstantSpeedPrefix(pi, c, raw0, start, rs);
      VelocityErrorDecays(pi, s, c, raw0, start, init);
      if last.raw.Some? {
        var turns :| TurnsAway(pi, last.raw.value, Place(c, raw0, start, last.at), turns);
        OneSample(pi, SampleAll(pi, s, init), c, raw0, start, LastAt(start, init), last.raw.value, last.at, turns,
                  s.state.velocity - c);
      }
    }
  }

  /** The same bound as a quotient. */
  lemma DecayAsQuotient(error: real, initial: real, elapsed: real)
    requires WithinDecay(error, initial, elapsed)
    ensures Abs(error) <= Abs(initial) * (TAU / (TAU + elapsed))
  {
    var t := TAU + elapsed;
    assert Abs(initial) * (TAU / t) * t == Abs(initial) * TAU;
    if Abs(error) > Abs(initial) * (TAU / t) {
      assert Abs(error) * t > Abs(initial) * (TAU / t) * t;
    }
  }

  // ---- the thread's variables ----------------------------------------------------------------------

  class EncoderThread {
    const pi: real
    const offset: real
    var prevAngle: real
    var havePrev: bool
    var signaledReady: bool
    var prevTime: uint32
    var state: EncoderState
    /** encoder_state_msgq, which holds one message. */
    var queue: Option<EncoderState>

    ghost function View(): Sampler
      reads this
    {
      Sampler(offset, prevAngle, havePrev, signaledReady, prevTime, state)
    }

    /** The thread up to its loop; `offset` is the reading it calibrated with. */
    constructor (pi: real, offset: real, now: uint32)
      requires pi > 0.0
      ensures this.pi == pi && queue == None
      ensures View() == Sampler(offset, 0.0, false, false, now, EncoderState(pi, 0.0))
    {
      this.pi, this.offset := pi, offset;
      prevAngle, havePrev, signaledReady, prevTime := 0.0, false, false, now;
      state := EncoderState(pi, 0.0);
      queue := None;
    }

    /** k_msgq_put without waiting. */
    method Put(e: EncoderState) returns (ok: bool)
      modifies `queue
      ensures ok == old(queue).None?
      ensures queue == if ok then Some(e) else old(queue)
    {
      ok := queue.None?;
      if ok { queue := Some(e); }
    }

    /** One pass of the loop: afterwards the queue holds the newest state and no older one. */
    method TakeSample(reading: Option<real>, now: uint32) returns (signals: bool)
      requires pi > 0.0
      modifies this
      ensures View() == Sampled(pi, old(View()), reading, now)
      ensures queue == if reading.Some? then Some(state) else old(queue)
      ensures signals <==> signaledReady && !old(signaledReady)
    {
      hide EncoderAngle, WrapAngle, Filtered, Seconds;
      signals := false;
      if reading.None? { return; }
      var angle := EncoderAngle(pi, reading.value, offset);
      var dt := Seconds(now, prevTime);
      prevTime := now;
      if havePrev && dt > 0.0 {
        var raw := WrapAngle(pi, angle - prevAngle) / dt;
        state := EncoderState(angle, Filtered(state.velocity, raw, dt));
        if !signaledReady {
          signaledReady := true;
          signals := true;
        }
      } else {
        state := state.(angle := angle);
      }
      var ok := Put(state);
      while !ok
        invariant ok ==> queue == Some(state)
        decreases !ok
        modifies `queue
      {
        queue := None;
        ok := Put(state);
      }
      prevAngle, havePrev := angle, true;
    }
  }
}
