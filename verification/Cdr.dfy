/**
 Reference encoder and decoder for the two ROS 2 messages of Tier 1, written the way
 section 15.3 of CORBA 3.0.3 reads: one primitive after the other, each aligned to its own
 size relative to the end of the 4-byte encapsulation header (section 10 of DDSI-RTPS).

 Alignment gaps are not prescribed by CDR.  The encoder takes them from a background `bg`;
 the customary zero padding is the empty background.
 */
module Cdr {
  import opened Bytes

  type CString = s: seq<byte> | forall i :: 0 <= i < |s| ==> s[i] != 0

  /** The eight bytes of an IEEE double; nothing here looks inside. */
  type Double = s: seq<byte> | |s| == 8 witness [0, 0, 0, 0, 0, 0, 0, 0]

  const ZERO: Double := [0, 0, 0, 0, 0, 0, 0, 0]

  const HEADER: seq<byte> := [0, 1, 0, 0]

  datatype Stamp = Stamp(sec: int32, nanosec: uint32)

  datatype JointState = JointState(
    stamp: Stamp, frame: CString, names: seq<CString>,
    position: seq<Double>, velocity: seq<Double>, effort: seq<Double>)

  datatype JointCommand = JointCommand(
    stamp: Stamp, frame: CString, names: seq<CString>, interface_: CString, values: seq<Double>)

  // ---- lengths ---------------------------------------------------------------------------

  function Pad4(n: nat): (p: nat)
    ensures p < 4 && (n + p) % 4 == 0
  {
    (n + 3) / 4 * 4 - n
  }

  function Pad8(n: nat): (p: nat)
    ensures p < 8 && (n + p) % 8 == 0
  {
    (n + 7) / 8 * 8 - n
  }

  /** The distance from n to the next multiple of a. */
  function Pad(n: nat, a: nat): (p: nat)
    requires a == 4 || a == 8
    ensures p < a
  {
    if a == 4 then Pad4(n) else Pad8(n)
  }

  function AfterU32(n: nat): (r: nat)
    ensures n + 4 <= r && r % 4 == 0
  {
    n + Pad(n, 4) + 4
  }

  function AfterString(n: nat, s: CString): (r: nat)
    ensures n + 5 <= r
  {
    AfterU32(n) + |s| + 1
  }

  function AfterStrings(n: nat, ss: seq<CString>): (r: nat)
    ensures n <= r
  {
    if ss == [] then n else AfterString(AfterStrings(n, ss[..|ss| - 1]), ss[|ss| - 1])
  }

  // ---- encoder ---------------------------------------------------------------------------

  function Align(bg: seq<byte>, out: seq<byte>, a: nat): (r: seq<byte>)
    requires a == 4 || a == 8
    ensures |r| == |out| + Pad(|out|, a) && out <= r
  {
    out + Window(bg, |out|, Pad(|out|, a))
  }

  function PutU32(bg: seq<byte>, out: seq<byte>, n: nat): (r: seq<byte>)
    ensures |r| == AfterU32(|out|) && out <= r
  {
    Align(bg, out, 4) + Le32(n)
  }

  function PutString(bg: seq<byte>, out: seq<byte>, s: CString): (r: seq<byte>)
    ensures |r| == AfterString(|out|, s) && out <= r
  {
    PutU32(bg, out, |s| + 1) + s + [0]
  }

  function PutStrings(bg: seq<byte>, out: seq<byte>, ss: seq<CString>): (r: seq<byte>)
    ensures |r| == AfterStrings(|out|, ss) && out <= r
  {
    if ss == [] then out
    else PutString(bg, PutStrings(bg, out, ss[..|ss| - 1]), ss[|ss| - 1])
  }

  function PutF64s(bg: seq<byte>, out: seq<byte>, ds: seq<Double>): (r: seq<byte>)
    ensures out <= r
  {
    if ds == [] then out
    else Align(bg, PutF64s(bg, out, ds[..|ds| - 1]), 8) + ds[|ds| - 1]
  }

  function PutF64Seq(bg: seq<byte>, out: seq<byte>, ds: seq<Double>): (r: seq<byte>)
    ensures out <= r
  {
    PutF64s(bg, PutU32(bg, out, |ds|), ds)
  }

  function PutHeader(bg: seq<byte>, stamp: Stamp, frame: CString, names: seq<CString>): seq<byte> {
    var t := PutU32(bg, PutU32(bg, [], Unsigned(stamp.sec)), stamp.nanosec);
    PutStrings(bg, PutU32(bg, PutString(bg, t, frame), |names|), names)
  }

  function JointStateBody(bg: seq<byte>, m: JointState): seq<byte> {
    var h := PutHeader(bg, m.stamp, m.frame, m.names);
    PutF64Seq(bg, PutF64Seq(bg, PutF64Seq(bg, h, m.position), m.velocity), m.effort)
  }

  function JointCommandBody(bg: seq<byte>, m: JointCommand): seq<byte> {
    var h := PutHeader(bg, m.stamp, m.frame, m.names);
    PutF64Seq(bg, PutString(bg, h, m.interface_), m.values)
  }

  /** The customary CDR_LE encoding, with zero padding. */
  function EncodeJointState(m: JointState): seq<byte> { HEADER + JointStateBody([], m) }

  function EncodeJointCommand(m: JointCommand): seq<byte> { HEADER + JointCommandBody([], m) }

  // ---- decoder ---------------------------------------------------------------------------

  /** A decoded value and the position behind it. */
  datatype Got<+T> = Fail | Got(value: T, next: nat) {
    predicate IsFailure() { Fail? }
    function PropagateFailure<U>(): Got<U> requires Fail? { Fail }
    function Extract(): (T, nat) requires Got? { (value, next) }
  }

  function GetU32(b: seq<byte>, pos: nat): Got<uint32> {
    var p := pos + Pad(pos, 4);
    if p + 4 <= |b| then Got(FromLe32(b[p..p + 4]), p + 4) else Fail
  }

  /** A length that counts the NUL, the characters, the NUL; no NUL inside. */
  function GetString(b: seq<byte>, pos: nat): Got<CString> {
    var (n, p) :- GetU32(b, pos);
    if n == 0 || p + n > |b| || b[p + n - 1] != 0 then Fail
    else
      var s := b[p..p + n - 1];
      if forall i :: 0 <= i < |s| ==> s[i] != 0 then Got(s, p + n) else Fail
  }

  function GetStrings(b: seq<byte>, pos: nat, n: nat): (g: Got<seq<CString>>)
    ensures g.Got? ==> |g.value| == n
  {
    if n == 0 then Got([], pos)
    else
      var (ss, p) :- GetStrings(b, pos, n - 1);
      var (s, q) :- GetString(b, p);
      Got(ss + [s], q)
  }

  function GetF64s(b: seq<byte>, pos: nat, n: nat): (g: Got<seq<Double>>)
    ensures g.Got? ==> |g.value| == n
  {
    if n == 0 then Got([], pos)
    else
      var (ds, p) :- GetF64s(b, pos, n - 1);
      var q := p + Pad(p, 8);
      if q + 8 <= |b| then Got(ds + [b[q..q + 8]], q + 8) else Fail
  }

  function GetF64Seq(b: seq<byte>, pos: nat): Got<seq<Double>> {
    var (n, p) :- GetU32(b, pos);
    GetF64s(b, p, n)
  }

  function GetHeader(b: seq<byte>): Got<(Stamp, CString, seq<CString>)> {
    var (sec, p0) :- GetU32(b, 0);
    var (nanosec, p1) :- GetU32(b, p0);
    var (frame, p2) :- GetString(b, p1);
    var (n, p3) :- GetU32(b, p2);
    var (names, p4) :- GetStrings(b, p3, n);
    Got((Stamp(Signed(sec), nanosec), frame, names), p4)
  }

  function JointStateFromBody(b: seq<byte>): Got<JointState> {
    var (h, p0) :- GetHeader(b);
    var (position, p1) :- GetF64Seq(b, p0);
    var (velocity, p2) :- GetF64Seq(b, p1);
    var (effort, p3) :- GetF64Seq(b, p2);
    Got(JointState(h.0, h.1, h.2, position, velocity, effort), p3)
  }

  function JointCommandFromBody(b: seq<byte>): Got<JointCommand> {
    var (h, p0) :- GetHeader(b);
    var (interface_, p1) :- GetString(b, p0);
    var (values, p2) :- GetF64Seq(b, p1);
    Got(JointCommand(h.0, h.1, h.2, interface_, values), p2)
  }

  /** CDR_LE is announced by the first two bytes; the options bytes are free. */
  predicate IsCdrLe(bytes: seq<byte>) {
    |bytes| >= 4 && bytes[0] == 0 && bytes[1] == 1
  }

  /** The message and the number of bytes it took, encapsulation header included. */
  function DecodeJointState(bytes: seq<byte>): Got<JointState> {
    if !IsCdrLe(bytes) then Fail
    else
      var (m, p) :- JointStateFromBody(bytes[4..]);
      Got(m, p + 4)
  }

  function DecodeJointCommand(bytes: seq<byte>): Got<JointCommand> {
    if !IsCdrLe(bytes) then Fail
    else
      var (m, p) :- JointCommandFromBody(bytes[4..]);
      Got(m, p + 4)
  }

  // ---- round trips -----------------------------------------------------------------------

  predicate Counted<T>(s: seq<T>) { |s| < WORD_RANGE - 1 }

  /** Every length of the message fits its 32-bit count. */
  predicate HeaderFits(frame: CString, names: seq<CString>) {
    Counted(frame) && Counted(names) && forall i :: 0 <= i < |names| ==> Counted(names[i])
  }

  predicate StateFits(m: JointState) {
    HeaderFits(m.frame, m.names) && Counted(m.position) && Counted(m.velocity) && Counted(m.effort)
  }

  predicate CommandFits(m: JointCommand) {
    HeaderFits(m.frame, m.names) && Counted(m.interface_) && Counted(m.values)
  }

  lemma GetPutU32(bg: seq<byte>, out: seq<byte>, n: uint32, b: seq<byte>)
    requires PutU32(bg, out, n) <= b
    ensures GetU32(b, |out|) == Got(n, |PutU32(bg, out, n)|)
  {
    var r := PutU32(bg, out, n);
    var p := |out| + Pad(|out|, 4);
    assert b[p..p + 4] == r[p..p + 4] == Le32(n);
    Le32RoundTrip(n);
  }

  lemma GetPutString(bg: seq<byte>, out: seq<byte>, s: CString, b: seq<byte>)
    requires PutString(bg, out, s) <= b && Counted(s)
    ensures GetString(b, |out|) == Got(s, |PutString(bg, out, s)|)
  {
    var r := PutString(bg, out, s);
    var n := |s| + 1;
    assert PutU32(bg, out, n) <= r;
    GetPutU32(bg, out, n, b);
    var p := |PutU32(bg, out, n)|;
    assert r[p..p + n - 1] == s && r[p + n - 1] == 0;
    assert b[p..p + n - 1] == r[p..p + n - 1];
  }

  lemma {:induction false} GetPutStrings(bg: seq<byte>, out: seq<byte>, ss: seq<CString>, b: seq<byte>)
    requires PutStrings(bg, out, ss) <= b
    requires forall i :: 0 <= i < |ss| ==> Counted(ss[i])
    ensures GetStrings(b, |out|, |ss|) == Got(ss, |PutStrings(bg, out, ss)|)
  {
    if ss != [] {
      var init, last := ss[..|ss| - 1], ss[|ss| - 1];
      var o := PutStrings(bg, out, init);
      GetPutStrings(bg, out, init, b);
      GetPutString(bg, o, last, b);
      assert init + [last] == ss;
    }
  }

  lemma {:induction false} GetPutF64s(bg: seq<byte>, out: seq<byte>, ds: seq<Double>, b: seq<byte>)
    requires PutF64s(bg, out, ds) <= b
    ensures GetF64s(b, |out|, |ds|) == Got(ds, |PutF64s(bg, out, ds)|)
  {
    if ds != [] {
      var init, last := ds[..|ds| - 1], ds[|ds| - 1];
      var o := PutF64s(bg, out, init);
      var r := PutF64s(bg, out, ds);
      GetPutF64s(bg, out, init, b);
      var q := |o| + Pad(|o|, 8);
      assert b[q..q + 8] == r[q..q + 8] == last;
      assert init + [last] == ds;
    }
  }

  lemma GetPutF64Seq(bg: seq<byte>, out: seq<byte>, ds: seq<Double>, b: seq<byte>)
    requires PutF64Seq(bg, out, ds) <= b && Counted(ds)
    ensures GetF64Seq(b, |out|) == Got(ds, |PutF64Seq(bg, out, ds)|)
  {
    GetPutU32(bg, out, |ds|, b);
    GetPutF64s(bg, PutU32(bg, out, |ds|), ds, b);
  }

  lemma GetPutHeader(bg: seq<byte>, stamp: Stamp, frame: CString, names: seq<CString>, b: seq<byte>)
    requires PutHeader(bg, stamp, frame, names) <= b && HeaderFits(frame, names)
    ensures GetHeader(b) == Got((stamp, frame, names), |PutHeader(bg, stamp, frame, names)|)
  {
    hide PutU32, PutString, PutStrings, GetU32, GetString, GetStrings;
    var t0 := PutU32(bg, [], Unsigned(stamp.sec));
    var t1 := PutU32(bg, t0, stamp.nanosec);
    var t2 := PutString(bg, t1, frame);
    var t3 := PutU32(bg, t2, |names|);
    GetPutU32(bg, [], Unsigned(stamp.sec), b);
    GetPutU32(bg, t0, stamp.nanosec, b);
    GetPutString(bg, t1, frame, b);
    GetPutU32(bg, t2, |names|, b);
    GetPutStrings(bg, t3, names, b);
  }

  lemma GetPutJointState(bg: seq<byte>, m: JointState, b: seq<byte>)
    requires JointStateBody(bg, m) <= b && StateFits(m)
    ensures JointStateFromBody(b) == Got(m, |JointStateBody(bg, m)|)
  {
    hide PutHeader, GetHeader, PutF64Seq, GetF64Seq;
    var h := PutHeader(bg, m.stamp, m.frame, m.names);
    var t1 := PutF64Seq(bg, h, m.position);
    var t2 := PutF64Seq(bg, t1, m.velocity);
    assert h <= t1 <= t2 <= b;
    GetPutHeader(bg, m.stamp, m.frame, m.names, b);
    GetPutF64Seq(bg, h, m.position, b);
    GetPutF64Seq(bg, t1, m.velocity, b);
    GetPutF64Seq(bg, t2, m.effort, b);
  }

  lemma GetPutJointCommand(bg: seq<byte>, m: JointCommand, b: seq<byte>)
    requires JointCommandBody(bg, m) <= b && CommandFits(m)
    ensures JointCommandFromBody(b) == Got(m, |JointCommandBody(bg, m)|)
  {
    hide PutHeader, GetHeader, PutF64Seq, GetF64Seq, PutString, GetString;
    var h := PutHeader(bg, m.stamp, m.frame, m.names);
    var t1 := PutString(bg, h, m.interface_);
    assert h <= t1 <= b;
    GetPutHeader(bg, m.stamp, m.frame, m.names, b);
    GetPutString(bg, h, m.interface_, b);
    GetPutF64Seq(bg, t1, m.values, b);
  }

  lemma DecodeStateBehindHeader(body: seq<byte>, tail: seq<byte>, g: Got<JointState>)
    requires JointStateFromBody(body + tail) == g
    ensures DecodeJointState(HEADER + body + tail) == if g.Got? then Got(g.value, g.next + 4) else Fail
  {
    hide JointStateFromBody;
    assert (HEADER + body + tail)[4..] == body + tail;
  }

  lemma DecodeCommandBehindHeader(body: seq<byte>, tail: seq<byte>, g: Got<JointCommand>)
    requires JointCommandFromBody(body + tail) == g
    ensures DecodeJointCommand(HEADER + body + tail) == if g.Got? then Got(g.value, g.next + 4) else Fail
  {
    hide JointCommandFromBody;
    assert (HEADER + body + tail)[4..] == body + tail;
  }

  /** Decoding an encoding, whatever the padding and whatever follows it, gives the message
      back and stops exactly at its end. */
  lemma JointStateRoundTrip(bg: seq<byte>, m: JointState, tail: seq<byte>)
    requires StateFits(m)
    ensures DecodeJointState(HEADER + JointStateBody(bg, m) + tail)
         == Got(m, |JointStateBody(bg, m)| + 4)
  {
    hide JointStateBody, JointStateFromBody, DecodeJointState;
    var body := JointStateBody(bg, m);
    GetPutJointState(bg, m, body + tail);
    DecodeStateBehindHeader(body, tail, Got(m, |body|));
  }

  lemma JointCommandRoundTrip(bg: seq<byte>, m: JointCommand, tail: seq<byte>)
    requires CommandFits(m)
    ensures DecodeJointCommand(HEADER + JointCommandBody(bg, m) + tail)
         == Got(m, |JointCommandBody(bg, m)| + 4)
  {
    hide JointCommandBody, JointCommandFromBody, DecodeJointCommand;
    var body := JointCommandBody(bg, m);
    GetPutJointCommand(bg, m, body + tail);
    DecodeCommandBehindHeader(body, tail, Got(m, |body|));
  }
}
