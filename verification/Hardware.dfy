/**
 The ros2_control hardware component of zenbedded_hardware_interface/src/zenbedded_hardware.cpp as
 a state machine over its lifecycle and its read/write cycle. Zenoh calls may fail at any of their
 three steps, and a read or write of an interface may be refused.
 */
module HardwareModel {
  import opened Bytes
  import opened Schema
  import opened FieldAccess

  datatype Config = Config(
    casts: Casts, stateFields: seq<FlatField>, stateSize: nat, commandFields: seq<FlatField>, commandSize: nat)

  predicate ConfigOk(c: Config) {
    && Tiles(c.stateFields, c.stateSize) && Tiles(c.commandFields, c.commandSize)
    && c.casts.truncate(ZERO) == Some(0)
  }

  datatype State = State(
    hwStates: seq<Double>, hwCommands: seq<Double>,
    stateValues: seq<Double>, commandValues: seq<Double>,
    stateBuffer: seq<byte>, commandBuffer: seq<byte>,
    session: bool, subscribed: bool, publisher: bool)

  /** The calls into the component, and what controllers and the wire do in between. `missed` are
      the interfaces that could not be accessed in that call. */
  datatype Op =
    | Activate(opened_: nat, missed: set<nat>)
    | Deactivate
    | Read(locked: bool, missed: set<nat>)
    | Write(missed: set<nat>)
    | Sample(payload: seq<byte>)
    | Control(index: nat, value: Double)

  const NAN: Double := [0, 0, 0, 0, 0, 0, 0xf8, 0x7f]

  /** A value that may be cast to the type of command field i. */
  predicate CastableAt(c: Config, i: nat, v: Double) {
    i < |c.commandFields| && Castable(c.casts, c.commandFields[i].type_, v)
  }

  predicate NaNOrCastable(c: Config, vs: seq<Double>) {
    |vs| == |c.commandFields| && forall i :: 0 <= i < |vs| ==> IsNaN(vs[i]) || CastableAt(c, i, vs[i])
  }

  predicate NoNaN(vs: seq<Double>) {
    forall i :: 0 <= i < |vs| ==> !IsNaN(vs[i])
  }

  /** What every run keeps: in particular a component that has a publisher holds no NaN. */
  predicate Inv(c: Config, s: State) {
    && |s.hwStates| == |s.stateValues| == |c.stateFields|
    && NaNOrCastable(c, s.hwCommands) && NaNOrCastable(c, s.commandValues)
    && |s.stateBuffer| == c.stateSize && |s.commandBuffer| == c.commandSize
    && (s.publisher ==> NoNaN(s.hwCommands))
  }

  /** Controllers only command values their interface's type can represent, or NaN. */
  predicate Legal(c: Config, op: Op) {
    op.Control? ==> op.index < |c.commandFields| && (IsNaN(op.value) || CastableAt(c, op.index, op.value))
  }

  function AllNaN(n: nat): (r: seq<Double>)
    ensures |r| == n && forall i :: 0 <= i < n ==> r[i] == NAN
  {
    seq<Double>(n, _ => NAN)
  }

  function AllZero(n: nat): (r: seq<Double>)
    ensures |r| == n && forall i :: 0 <= i < n ==> r[i] == ZERO
  {
    seq<Double>(n, _ => ZERO)
  }

  function Start(c: Config): (s: State)
    ensures ConfigOk(c) ==> Inv(c, s)
  {
    ZeroIsANumber();
    State(AllNaN(|c.stateFields|), AllNaN(|c.commandFields|), AllZero(|c.stateFields|),
          AllZero(|c.commandFields|), Zeros(c.stateSize), Zeros(c.commandSize), false, false, false)
  }

  lemma ZeroIsANumber()
    ensures !IsNaN(ZERO) && IsNaN(NAN)
  {}

  /** Every NaN replaced by 0.0. */
  function Defaulted(vs: seq<Double>): (r: seq<Double>)
    ensures |r| == |vs| && forall i :: 0 <= i < |vs| ==> r[i] == if IsNaN(vs[i]) then ZERO else vs[i]
  {
    seq<Double>(|vs|, (i: nat) requires i < |vs| => if IsNaN(vs[i]) then ZERO else vs[i])
  }

  /** set_value on every interface that could be accessed. */
  function SetValues(ifs: seq<Double>, vs: seq<Double>, missed: set<nat>): (r: seq<Double>)
    requires |ifs| == |vs|
    ensures |r| == |vs| && forall i: nat :: i < |vs| ==> r[i] == if i in missed then ifs[i] else vs[i]
  {
    seq<Double>(|vs|, (i: nat) requires i < |vs| == |ifs| => if i in missed then ifs[i] else vs[i])
  }

  /** The value interface i offers a write. */
  function Offered(s: State, missed: set<nat>, i: nat): Option<Double> {
    if i < |s.commandValues| && i !in missed && !IsNaN(s.commandValues[i]) then Some(s.commandValues[i]) else None
  }

  /** The held commands after a write has looked at the interfaces. */
  function Taken(s: State, missed: set<nat>): (r: seq<Double>)
    requires |s.hwCommands| == |s.commandValues|
    ensures |r| == |s.hwCommands|
    ensures forall i: nat :: i < |r| ==>
              r[i] == if Offered(s, missed, i).Some? then Offered(s, missed, i).value else s.hwCommands[i]
  {
    seq<Double>(|s.hwCommands|, (i: nat) requires i < |s.hwCommands| =>
      if Offered(s, missed, i).Some? then Offered(s, missed, i).value else s.hwCommands[i])
  }

  function ReadAll(c: Config, buf: seq<byte>): (r: seq<Double>)
    requires ConfigOk(c) && |buf| == c.stateSize
    ensures |r| == |c.stateFields|
    ensures forall i: nat :: i < |r| ==> r[i] == ReadField(c.casts, c.stateFields, buf, i)
  {
    seq<Double>(|c.stateFields|, (i: nat) requires Tiles(c.stateFields, |buf|) =>
      ReadField(c.casts, c.stateFields, buf, i))
  }

  lemma HeldValuesFit(c: Config, s: State, missed: set<nat>)
    requires Inv(c, s) && s.publisher
    ensures ValuesFit(c.casts, c.commandFields, Taken(s, missed))
    ensures NoNaN(Taken(s, missed)) && NaNOrCastable(c, Taken(s, missed))
  {
    var t := Taken(s, missed);
    forall i: nat | i < |t| ensures !IsNaN(t[i]) && CastableAt(c, i, t[i]) {}
  }

  function Activated(s: State, op: Op): (r: State)
    requires op.Activate? && |s.stateValues| == |s.hwStates| && |s.commandValues| == |s.hwCommands|
  {
    var connected := s.(session := s.session || op.opened_ >= 1, subscribed := s.subscribed || op.opened_ >= 2);
    if op.opened_ < 3 then connected
    else
      var states, commands := Defaulted(s.hwStates), Defaulted(s.hwCommands);
      connected.(publisher := true, hwStates := states, hwCommands := commands,
                 stateValues := SetValues(s.stateValues, states, op.missed),
                 commandValues := SetValues(s.commandValues, commands, op.missed))
  }

  lemma ActivatedKeepsInv(c: Config, s: State, op: Op)
    requires ConfigOk(c) && Inv(c, s) && op.Activate?
    ensures Inv(c, Activated(s, op))
  {
    ZeroIsANumber();
    if op.opened_ >= 3 {
      var r := Activated(s, op);
      assert r.hwCommands == Defaulted(s.hwCommands);
      forall i | 0 <= i < |r.hwCommands| ensures CastableAt(c, i, r.hwCommands[i]) {
        assert CastableAt(c, i, ZERO);
      }
    }
  }

  function Step(c: Config, s: State, op: Op): (r: State)
    requires ConfigOk(c) && Inv(c, s) && Legal(c, op)
    ensures Inv(c, r)
  {
    match op
    case Activate(_, _) =>
      ActivatedKeepsInv(c, s, op);
      Activated(s, op)
    case Deactivate => s.(session := false, subscribed := false, publisher := false)
    case Read(locked, missed) =>
      if locked then s
      else
        var states := ReadAll(c, s.stateBuffer);
        s.(hwStates := states, stateValues := SetValues(s.stateValues, states, missed))
    case Write(missed) =>
      if !s.publisher then s
      else
        HeldValuesFit(c, s, missed);
        PackedSize(c, Taken(s, missed));
        s.(hwCommands := Taken(s, missed),
           commandBuffer := Packed(c.casts, c.commandFields, Taken(s, missed)))
    case Sample(payload) =>
      if s.subscribed && |payload| == c.stateSize then s.(stateBuffer := payload) else s
    case Control(i, v) => s.(commandValues := s.commandValues[i := v])
  }

  lemma PackedSize(c: Config, vs: seq<Double>)
    requires ConfigOk(c) && ValuesFit(c.casts, c.commandFields, vs)
    ensures |Packed(c.casts, c.commandFields, vs)| == c.commandSize
  {
    PackedLength(c.casts, c.commandFields, vs, c.commandSize);
  }

  /** What a write hands to the publisher. */
  function Published(c: Config, s: State, op: Op): Option<seq<byte>>
    requires ConfigOk(c) && Inv(c, s) && Legal(c, op)
  {
    if op.Write? && s.publisher then Some(Step(c, s, op).commandBuffer) else None
  }

  // ---- runs ------------------------------------------------------------------------------------

  predicate AllLegal(c: Config, ops: seq<Op>) {
    forall k :: 0 <= k < |ops| ==> Legal(c, ops[k])
  }

  function Run(c: Config, ops: seq<Op>): (s: State)
    requires ConfigOk(c) && AllLegal(c, ops)
    ensures Inv(c, s)
  {
    if ops == [] then Start(c) else Step(c, Run(c, ops[..|ops| - 1]), ops[|ops| - 1])
  }

  // ---- what the calls alone say -------------------------------------------------------------------

  /** How far the calls have connected the component: 1 with a session, 2 with the subscription as well and
      3 with the publisher. */
  function Connected(ops: seq<Op>): (n: nat)
    ensures n <= 3
  {
    if ops == [] then 0
    else
      var init, op := ops[..|ops| - 1], ops[|ops| - 1];
      if op.Activate? then Max(Connected(init), Min(op.opened_, 3))
      else if op.Deactivate? then 0
      else Connected(init)
  }

  predicate EverActive(ops: seq<Op>) {
    exists k :: 0 <= k < |ops| && ops[k].Activate? && ops[k].opened_ >= 3
  }

  /** The value command interface i shows: what a controller or a complete activation left there last. */
  function Shown(ops: seq<Op>, i: nat): Double
    decreases |ops|, 2
  {
    if ops == [] then ZERO
    else
      var init, op := ops[..|ops| - 1], ops[|ops| - 1];
      if op.Control? && op.index == i then op.value
      else if op.Activate? && op.opened_ >= 3 && i !in op.missed then Wanted(ops, i)
      else Shown(init, i)
  }

  /** The last number interface i showed to a write that had a publisher and could access it. */
  function LastSeen(ops: seq<Op>, i: nat): (v: Option<Double>)
    ensures v.Some? ==> !IsNaN(v.value)
    decreases |ops|, 0
  {
    if ops == [] then None
    else
      var init, op := ops[..|ops| - 1], ops[|ops| - 1];
      if op.Write? && Connected(init) == 3 && i !in op.missed && !IsNaN(Shown(init, i)) then Some(Shown(init, i))
      else LastSeen(init, i)
  }

  /** What interface i is to be commanded after a run. */
  function Wanted(ops: seq<Op>, i: nat): Double
    decreases |ops|, 1
  {
    if LastSeen(ops, i).Some? then LastSeen(ops, i).value
    else if EverActive(ops) then ZERO
    else NAN
  }

  lemma {:induction false} ConnectedAsCalled(c: Config, ops: seq<Op>)
    requires ConfigOk(c) && AllLegal(c, ops)
    ensures var s := Run(c, ops);
      && (s.session <==> Connected(ops) >= 1) && (s.subscribed <==> Connected(ops) >= 2)
      && (s.publisher <==> Connected(ops) == 3)
  {
    hide Packed, ReadAll, Castable, Tiles, IsNaN;
    if ops != [] { ConnectedAsCalled(c, ops[..|ops| - 1]); }
  }

  lemma {:induction false} ConnectedMeansActive(ops: seq<Op>)
    requires Connected(ops) == 3
    ensures EverActive(ops)
  {
    var init, op := ops[..|ops| - 1], ops[|ops| - 1];
    ActiveOneMore(ops);
    if !(op.Activate? && op.opened_ >= 3) { ConnectedMeansActive(init); }
  }

  lemma PublisherMeansActive(c: Config, ops: seq<Op>)
    requires ConfigOk(c) && AllLegal(c, ops) && Run(c, ops).publisher
    ensures EverActive(ops)
  {
    ConnectedAsCalled(c, ops);
    ConnectedMeansActive(ops);
  }

  lemma ActiveOneMore(ops: seq<Op>)
    requires ops != []
    ensures var init, last := ops[..|ops| - 1], ops[|ops| - 1];
      EverActive(ops) <==> EverActive(init) || (last.Activate? && last.opened_ >= 3)
  {
    var init, op := ops[..|ops| - 1], ops[|ops| - 1];
    if EverActive(init) {
      var k :| 0 <= k < |init| && init[k].Activate? && init[k].opened_ >= 3;
      assert ops[k] == init[k];
    }
    if op.Activate? && op.opened_ >= 3 { assert ops[|ops| - 1] == op; }
    if EverActive(ops) {
      var k :| 0 <= k < |ops| && ops[k].Activate? && ops[k].opened_ >= 3;
      if k < |init| { assert init[k] == ops[k]; }
    }
  }

  /** After any run the component holds, per command interface, the last number it was shown; 0.0 when it
      has been active and was shown none; NaN before that. And the interface shows what the calls left
      there. */
  lemma {:induction false} HeldIsLastSeen(c: Config, ops: seq<Op>, i: nat)
    requires ConfigOk(c) && AllLegal(c, ops) && i < |c.commandFields|
    ensures Run(c, ops).hwCommands[i] == Wanted(ops, i)
    ensures Run(c, ops).commandValues[i] == Shown(ops, i)
  {
    hide Packed, ReadAll, Castable, Tiles, IsNaN;
    if ops != [] {
      var init, op := ops[..|ops| - 1], ops[|ops| - 1];
      HeldIsLastSeen(c, init, i);
      ConnectedAsCalled(c, init);
      ActiveOneMore(ops);
      ZeroIsANumber();
    }
  }

  /** What a controller commands reaches the wire: once the component has its publisher, a number set on an
      interface that the next write can access is held and published, converted to the field's type; a NaN,
      or an interface it cannot access, leaves the held value in place. */
  lemma CommandReachesTheWire(c: Config, ops: seq<Op>, i: nat, v: Double, missed: set<nat>)
    requires ConfigOk(c) && AllLegal(c, ops) && Connected(ops) == 3
    requires i < |c.commandFields| && Legal(c, Control(i, v))
    ensures AllLegal(c, ops + [Control(i, v)]) && AllLegal(c, ops + [Control(i, v), Write(missed)])
    ensures var held := if i !in missed && !IsNaN(v) then v else Run(c, ops).hwCommands[i];
            var sent := Published(c, Run(c, ops + [Control(i, v)]), Write(missed));
      && Run(c, ops + [Control(i, v), Write(missed)]).hwCommands[i] == held
      && sent.Some? && |sent.value| == c.commandSize && CastableAt(c, i, held)
      && ReadField(c.casts, c.commandFields, sent.value, i) == Converted(c.casts, c.commandFields[i].type_, held)
  {
    hide Packed, ReadAll, Castable, Tiles, IsNaN, ReadField, Converted, ValuesFit;
    var one, all := ops + [Control(i, v)], ops + [Control(i, v), Write(missed)];
    assert all[..|all| - 1] == one && one[..|one| - 1] == ops;
    ConnectedAsCalled(c, ops);
    var s := Run(c, one);
    HeldValuesFit(c, s, missed);
    FitsAt(c, Taken(s, missed), i);
    PackedReadsBack(c.casts, c.commandFields, Taken(s, missed), c.commandSize, i);
  }

  lemma FitsAt(c: Config, vs: seq<Double>, i: nat)
    requires ValuesFit(c.casts, c.commandFields, vs) && i < |vs|
    ensures CastableAt(c, i, vs[i])
  {}

  /** What a complete activation leaves: every held value that was NaN is 0.0, the others are as before,
      and every interface it can access shows the held value. An incomplete one changes no value. */
  lemma ActivationShowsNumbers(c: Config, s: State, op: Op, i: nat)
    requires ConfigOk(c) && Inv(c, s) && op.Activate?
    ensures var r, complete := Step(c, s, op), op.opened_ >= 3;
      && (i < |c.stateFields| ==>
            && r.hwStates[i] == (if complete && IsNaN(s.hwStates[i]) then ZERO else s.hwStates[i])
            && r.stateValues[i] == if complete && i !in op.missed then r.hwStates[i] else s.stateValues[i])
      && (i < |c.commandFields| ==>
            && r.hwCommands[i] == (if complete && IsNaN(s.hwCommands[i]) then ZERO else s.hwCommands[i])
            && r.commandValues[i] == if complete && i !in op.missed then r.hwCommands[i] else s.commandValues[i])
  {
    hide IsNaN, Castable, Tiles;
  }

  /** A published payload is the packed struct of the wanted values: per field it decodes to the
      last number offered, or 0.0, converted to the field's type; never a NaN, never an old byte. */
  lemma PublishedPayload(c: Config, ops: seq<Op>, missed: set<nat>, vs: seq<Double>)
    requires ConfigOk(c) && AllLegal(c, ops) && Connected(ops) == 3 && |vs| == |c.commandFields|
    requires AllLegal(c, ops + [Write(missed)])
    requires forall i: nat :: i < |vs| ==> vs[i] == Wanted(ops + [Write(missed)], i)
    ensures NoNaN(vs) && ValuesFit(c.casts, c.commandFields, vs)
    ensures Published(c, Run(c, ops), Write(missed)) == Some(Packed(c.casts, c.commandFields, vs))
    ensures |Packed(c.casts, c.commandFields, vs)| == c.commandSize
    ensures forall i: nat | i < |vs| ::
              ReadField(c.casts, c.commandFields, Packed(c.casts, c.commandFields, vs), i)
              == Converted(c.casts, c.commandFields[i].type_, vs[i])
  {
    hide Packed, ReadAll, Castable, Tiles, IsNaN, ValuesFit, ReadField, Converted;
    var all := ops + [Write(missed)];
    assert all[..|ops|] == ops;
    var s := Run(c, ops);
    ConnectedAsCalled(c, ops);
    HeldValuesFit(c, s, missed);
    forall i: nat | i < |vs| ensures vs[i] == Taken(s, missed)[i] {
      HeldIsLastSeen(c, all, i);
    }
    assert vs == Taken(s, missed);
    PackedSize(c, vs);
    forall i: nat | i < |vs|
      ensures ReadField(c.casts, c.commandFields, Packed(c.casts, c.commandFields, vs), i)
           == Converted(c.casts, c.commandFields[i].type_, vs[i])
    {
      PackedReadsBack(c.casts, c.commandFields, vs, c.commandSize, i);
    }
  }

  /** The last payload of the right size that arrived while subscribed, or zeros. */
  function LastSample(c: Config, ops: seq<Op>): (b: seq<byte>)
    requires ConfigOk(c) && AllLegal(c, ops)
    ensures |b| == c.stateSize
  {
    if ops == [] then Zeros(c.stateSize)
    else
      var init, op := ops[..|ops| - 1], ops[|ops| - 1];
      if op.Sample? && Connected(init) >= 2 && |op.payload| == c.stateSize then op.payload
      else LastSample(c, init)
  }

  lemma {:induction false} BufferIsLastSample(c: Config, ops: seq<Op>)
    requires ConfigOk(c) && AllLegal(c, ops)
    ensures Run(c, ops).stateBuffer == LastSample(c, ops)
  {
    hide Packed, ReadAll, Castable, Tiles, IsNaN;
    if ops != [] {
      BufferIsLastSample(c, ops[..|ops| - 1]);
      ConnectedAsCalled(c, ops[..|ops| - 1]);
    }
  }

  /** A read that gets the lock reports the fields of the last whole payload, on every interface it
      can access; payloads of any other size leave no trace. */
  lemma ReadReportsLastSample(c: Config, ops: seq<Op>, missed: set<nat>, i: nat)
    requires ConfigOk(c) && AllLegal(c, ops) && i < |c.stateFields|
    ensures AllLegal(c, ops + [Read(false, missed)])
    ensures var s, value := Run(c, ops + [Read(false, missed)]),
                            ReadField(c.casts, c.stateFields, LastSample(c, ops), i);
            s.hwStates[i] == value && (i !in missed ==> s.stateValues[i] == value)
  {
    hide Packed, Castable, Tiles, IsNaN, ReadField;
    assert (ops + [Read(false, missed)])[..|ops|] == ops;
    BufferIsLastSample(c, ops);
  }
}
