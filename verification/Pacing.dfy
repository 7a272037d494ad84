/**
 The pace of the control thread of zenbedded_rcl/src/zenbedded_client.cpp, whose clock is a 32-bit
 millisecond counter that wraps.
 */
module Pacing {
  import opened Bytes

  function Period(freq: nat): (ms: nat)
    requires freq > 0
    ensures ms >= 1
  {
    Max(1000 / freq, 1)
  }

  /** The period is the longest whole number of milliseconds that is not longer than the frequency asks
      for, and never less than one. */
  lemma PeriodIsTheFrequency(freq: nat)
    requires freq > 0
    ensures freq <= 1000 ==> Period(freq) * freq <= 1000 < (Period(freq) + 1) * freq
    ensures freq > 1000 ==> Period(freq) == 1
  {
    assert 1000 == 1000 / freq * freq + 1000 % freq;
    if freq <= 1000 { assert 1000 / freq >= 1; }
  }

  /** k_uptime_get_32 */
  function Uptime32(ms: nat): uint32 { ms % WORD_RANGE }

  /** What one turn of the loop takes: publishing time, then a sleep that is at least as long as
      requested. */
  datatype Turn = Turn(publish: nat, overSleep: nat)

  /** The turn's length: the period, or one tick more than publishing when that is longer. */
  function Length(period: nat, t: Turn): (ms: nat)
    ensures ms >= period
  {
    Max(period, t.publish + 1) + t.overSleep
  }

  function Total(period: nat, ts: seq<Turn>): nat {
    if ts == [] then 0 else Total(period, ts[..|ts| - 1]) + Length(period, ts[|ts| - 1])
  }

  /** The wrapped difference is the time publishing took. */
  lemma ElapsedAcrossWrap(before: nat, took: nat)
    requires took < WORD_RANGE
    ensures (Uptime32(before + took) - Uptime32(before)) % WORD_RANGE == took
  {
    var a, b := (before + took) / WORD_RANGE, before / WORD_RANGE;
    assert Uptime32(before + took) - Uptime32(before) == took - (a - b) * WORD_RANGE;
    if a - b != 0 { assert a - b == 1; }
  }

  lemma {:induction false} TotalAtLeast(period: nat, ts: seq<Turn>, i: nat)
    requires i <= |ts|
    ensures Total(period, ts) >= Total(period, ts[..i]) + (|ts| - i) * period
  {
    hide Length;
    if i == |ts| {
      assert ts[..i] == ts;
    } else {
      var init := ts[..|ts| - 1];
      TotalAtLeast(period, init, i);
      assert init[..i] == ts[..i];
      OneMorePeriod(|init| - i, period);
    }
  }

  lemma OneMorePeriod(n: int, period: nat)
    ensures (n + 1) * period == n * period + period
  {}

  /** The loop of control_thread_fn for as many turns as it is left running; `now` is the true time
      since power-on. Every requested sleep is between 1 ms and the period, publishing starts at the
      exact times the turns add up to, and so any two starts are at least a period apart for every
      turn between them, whatever the 32-bit clock does. */
  method ControlThread(freq: nat, start: nat, turns: seq<Turn>)
    returns (starts: seq<nat>, sleeps: seq<nat>, end: nat)
    requires freq > 0 && forall i :: 0 <= i < |turns| ==> turns[i].publish < WORD_RANGE
    ensures |starts| == |sleeps| == |turns|
    ensures forall i :: 0 <= i < |sleeps| ==> 1 <= sleeps[i] <= Period(freq)
    ensures forall i :: 0 <= i < |starts| ==> starts[i] == start + Total(Period(freq), turns[..i])
    ensures end == start + Total(Period(freq), turns)
    ensures forall i, j :: 0 <= i <= j < |starts| ==> starts[j] >= starts[i] + (j - i) * Period(freq)
    ensures end >= start + |turns| * Period(freq)
  {
    hide Period, Total, OnTime;
    var period := Period(freq);
    var now: nat := start;
    var prevTime := Uptime32(now);
    starts, sleeps := [], [];
    NoneOnTime(start, period, turns);
    for i := 0 to |turns|
      invariant |starts| == |sleeps| == i && prevTime == Uptime32(now)
      invariant OnTime(starts, start, period, turns, now)
      invariant forall k :: 0 <= k < i ==> 1 <= sleeps[k] <= period
    {
      ghost var before, starts0 := now, starts;
      starts := starts + [now];
      ElapsedAcrossWrap(now, turns[i].publish);
      now := now + turns[i].publish;
      var diff := (Uptime32(now) - prevTime) % WORD_RANGE;
      var sleepMs := if diff >= period then 1 else period - diff;
      sleeps := sleeps + [sleepMs];
      now := now + sleepMs + turns[i].overSleep;
      prevTime := Uptime32(now);
      OneMoreOnTime(starts0, start, period, turns, before, sleepMs);
    }
    end := now;
    AllOnTime(starts, start, period, turns, end);
  }

  /** The turns so far started when they should, and the next one starts now. */
  ghost predicate OnTime(starts: seq<nat>, start: nat, period: nat, ts: seq<Turn>, now: nat) {
    && |starts| <= |ts| && now == start + Total(period, ts[..|starts|])
    && forall k :: 0 <= k < |starts| ==> starts[k] == start + Total(period, ts[..k])
  }

  lemma NoneOnTime(start: nat, period: nat, ts: seq<Turn>)
    ensures OnTime([], start, period, ts, start)
  {
    assert ts[..0] == [];
  }

  lemma OneMoreOnTime(starts: seq<nat>, start: nat, period: nat, ts: seq<Turn>, now: nat, sleepMs: nat)
    requires |starts| < |ts| && OnTime(starts, start, period, ts, now)
    requires var p := ts[|starts|].publish; sleepMs == if p >= period then 1 else period - p
    ensures var t := ts[|starts|];
            OnTime(starts + [now], start, period, ts, now + t.publish + sleepMs + t.overSleep)
  {
    var i := |starts|;
    assert ts[..i + 1][..i] == ts[..i];
  }

  lemma AllOnTime(starts: seq<nat>, start: nat, period: nat, ts: seq<Turn>, end: nat)
    requires |starts| == |ts| && OnTime(starts, start, period, ts, end)
    ensures forall i :: 0 <= i < |starts| ==> starts[i] == start + Total(period, ts[..i])
    ensures end == start + Total(period, ts) && end >= start + |ts| * period
    ensures forall i, j :: 0 <= i <= j < |starts| ==> starts[j] >= starts[i] + (j - i) * period
  {
    assert ts[..|ts|] == ts && ts[..0] == [];
    TotalAtLeast(period, ts, 0);
    forall i, j | 0 <= i <= j < |starts| ensures starts[j] >= starts[i] + (j - i) * period {
      TurnsApart(period, ts, i, j);
    }
  }

  lemma TurnsApart(period: nat, ts: seq<Turn>, i: nat, j: nat)
    requires i <= j <= |ts|
    ensures Total(period, ts[..j]) >= Total(period, ts[..i]) + (j - i) * period
  {
    TotalAtLeast(period, ts[..j], i);
    assert ts[..j][..i] == ts[..i];
  }
}
