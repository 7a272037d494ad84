/** The hardware component's methods, each proved to take the step the state machine gives it. */
module ZenbeddedHardware {
  import opened Bytes
  import opened Schema
  import opened FieldAccess
  import opened HardwareModel

  /** on_init succeeds when the base class does, the required parameters are there and the schema
      file holds a valid schema. */
  predicate Initialises(baseOk: bool, parameters: map<string, string>, schema: InterfaceSchema) {
    && baseOk && schema.valid
    && {"zenoh_endpoint", "state_topic", "command_topic", "schema_path"} <= parameters.Keys
  }

  /** The first n elements of a vector have been updated. */
  predicate Updated(now: seq<Double>, was: seq<Double>, to: seq<Double>, n: nat) {
    |now| == |was| == |to| && forall k :: 0 <= k < |now| ==> now[k] == if k < n then to[k] else was[k]
  }

  lemma UpdatedOneMore(now: seq<Double>, was: seq<Double>, to: seq<Double>, n: nat)
    requires Updated(now, was, to, n) && n < |to|
    ensures Updated(now[n := to[n]], was, to, n + 1)
    ensures now[n] == to[n] ==> Updated(now, was, to, n + 1)
  {}

  lemma NothingUpdated(was: seq<Double>, to: seq<Double>)
    requires |was| == |to|
    ensures Updated(was, was, to, 0)
  {}

  /** Element n still holds its old value when its turn comes. */
  lemma Lengths(now: seq<Double>, was: seq<Double>, to: seq<Double>, n: nat)
    requires Updated(now, was, to, n)
    ensures |now| == |was| == |to|
    ensures n < |now| ==> now[n] == was[n]
  {}

  lemma AllUpdated(now: seq<Double>, was: seq<Double>, to: seq<Double>)
    requires Updated(now, was, to, |to|)
    ensures now == to
  {}

  class Component {
    const config: Config
    var hwStates: seq<Double>
    var hwCommands: seq<Double>
    var stateValues: seq<Double>
    var commandValues: seq<Double>
    var stateBuffer: seq<byte>
    const commandBuffer: array<byte>
    var session: bool
    var stateSub: bool
    var commandPub: bool

    ghost function View(): State
      reads this, commandBuffer
    {
      State(hwStates, hwCommands, stateValues, commandValues, stateBuffer, commandBuffer[..],
            session, stateSub, commandPub)
    }

    ghost predicate Valid()
      reads this, commandBuffer
    {
      ConfigOk(config) && Inv(config, View())
    }

    /** The part of on_init that follows the checks. */
    constructor (c: Config)
      requires ConfigOk(c)
      ensures Valid() && config == c && View() == Start(c) && fresh(commandBuffer)
    {
      config := c;
      hwStates, hwCommands := AllNaN(|c.stateFields|), AllNaN(|c.commandFields|);
      stateValues, commandValues := AllZero(|c.stateFields|), AllZero(|c.commandFields|);
      stateBuffer := Zeros(c.stateSize);
      commandBuffer := new byte[c.commandSize](_ => 0);
      session, stateSub, commandPub := false, false, false;
      new;
      assert commandBuffer[..] == Zeros(c.commandSize);
    }

    static method OnInit(c: Casts, baseOk: bool, parameters: map<string, string>, schema: InterfaceSchema)
      returns (component: Component?)
      requires c.truncate(ZERO) == Some(0)
      requires schema.valid ==>
                 && Tiles(schema.stateFields, schema.stateBufferSize)
                 && Tiles(schema.commandFields, schema.commandBufferSize)
      ensures component != null <==> Initialises(baseOk, parameters, schema)
      ensures component != null ==>
                && fresh(component) && fresh(component.commandBuffer) && component.Valid()
                && component.View() == Start(component.config)
                && component.config == Config(c, schema.stateFields, schema.stateBufferSize,
                                              schema.commandFields, schema.commandBufferSize)
    {
      if !baseOk || "zenoh_endpoint" !in parameters || "state_topic" !in parameters
         || "command_topic" !in parameters || "schema_path" !in parameters || !schema.valid {
        return null;
      }
      component := new Component(Config(c, schema.stateFields, schema.stateBufferSize,
                                        schema.commandFields, schema.commandBufferSize));
    }

    /** The two loops of on_activate over held values and their interfaces. */
    static method DefaultNaNs(held: seq<Double>, ifs: seq<Double>, missed: set<nat>)
      returns (held': seq<Double>, ifs': seq<Double>)
      requires |held| == |ifs|
      ensures held' == Defaulted(held) && ifs' == SetValues(ifs, Defaulted(held), missed)
    {
      hide IsNaN, Updated;
      held', ifs' := held, ifs;
      ghost var numbers := Defaulted(held);
      ghost var values := SetValues(ifs, numbers, missed);
      NothingUpdated(held, numbers);
      NothingUpdated(ifs, values);
      for i: nat := 0 to |held|
        invariant Updated(held', held, numbers, i) && Updated(ifs', ifs, values, i)
      {
        Lengths(held', held, numbers, i);
        Lengths(ifs', ifs, values, i);
        UpdatedOneMore(held', held, numbers, i);
        UpdatedOneMore(ifs', ifs, values, i);
        if IsNaN(held'[i]) { held' := held'[i := ZERO]; }
        if i !in missed { ifs' := ifs'[i := held'[i]]; }
      }
      AllUpdated(held', held, numbers);
      AllUpdated(ifs', ifs, values);
    }

    /** on_activate; `opened_` counts the zenoh calls that succeeded. */
    method OnActivate(opened_: nat, missed: set<nat>) returns (ok: bool)
      requires Valid()
      modifies `hwStates, `hwCommands, `stateValues, `commandValues, `session, `stateSub, `commandPub
      ensures Valid() && View() == Step(config, old(View()), Activate(opened_, missed))
      ensures ok <==> opened_ >= 3
    {
      ghost var op := Activate(opened_, missed);
      ActivatedKeepsInv(config, View(), op);
      hide Defaulted, SetValues, Inv;
      if opened_ < 1 { return false; }
      session := true;
      if opened_ < 2 { return false; }
      stateSub := true;
      if opened_ < 3 { return false; }
      commandPub := true;
      var states, values := DefaultNaNs(hwStates, stateValues, missed);
      hwStates, stateValues := states, values;
      var commands, values' := DefaultNaNs(hwCommands, commandValues, missed);
      hwCommands, commandValues := commands, values';
      ok := true;
    }

    method OnDeactivate()
      requires Valid()
      modifies `session, `stateSub, `commandPub
      ensures Valid() && View() == Step(config, old(View()), Deactivate)
    {
      stateSub := false;
      commandPub := false;
      session := false;
    }

    /** The subscriber callback. */
    method OnSample(bytes: seq<byte>)
      requires Valid()
      modifies `stateBuffer
      ensures Valid() && View() == Step(config, old(View()), Sample(bytes))
    {
      if !stateSub { return; }
      if |bytes| != config.stateSize { return; }
      stateBuffer := bytes;
    }

    /** read */
    method Read(locked: bool, missed: set<nat>)
      requires Valid()
      modifies `hwStates, `stateValues
      ensures Valid() && View() == Step(config, old(View()), Op.Read(locked, missed))
    {
      hide ReadField, Tiles, Updated, NaNOrCastable, NoNaN;
      if !locked && |stateBuffer| == config.stateSize {
        ghost var all := ReadAll(config, stateBuffer);
        ghost var states, values := hwStates, stateValues;
        ghost var values' := SetValues(values, all, missed);
        NothingUpdated(states, all);
        NothingUpdated(values, values');
        for i: nat := 0 to |config.stateFields|
          invariant Updated(hwStates, states, all, i) && Updated(stateValues, values, values', i)
        {
          Lengths(hwStates, states, all, i);
          Lengths(stateValues, values, values', i);
          UpdatedOneMore(hwStates, states, all, i);
          UpdatedOneMore(stateValues, values, values', i);
          var v := ReadField(config.casts, config.stateFields, stateBuffer, i);
          hwStates := hwStates[i := v];
          if i !in missed { stateValues := stateValues[i := hwStates[i]]; }
        }
        AllUpdated(hwStates, states, all);
        AllUpdated(stateValues, values, values');
      }
    }

    /** The loop of write: `taken` is what the held commands become. */
    method TakeAndPack(missed: set<nat>, ghost s: State, ghost taken: seq<Double>)
      requires Tiles(config.commandFields, commandBuffer.Length)
      requires ValuesFit(config.casts, config.commandFields, taken)
      requires s.hwCommands == hwCommands && s.commandValues == commandValues
      requires |hwCommands| == |commandValues| && taken == Taken(s, missed)
      modifies `hwCommands, commandBuffer
      ensures hwCommands == taken
      ensures commandBuffer[..] == Packed(config.casts, config.commandFields, taken)
    {
      hide IsNaN, Castable, Tiles, FieldBytes, Updated, ValuesFit, Written, Holds, Packed, Slot;
      var fs := config.commandFields;
      NothingUpdated(hwCommands, taken);
      HoldsNone(config.casts, fs, commandBuffer[..], taken);
      assert |taken| == |fs| by { SameLength(config.casts, fs, taken); }
      for i: nat := 0 to |fs|
        invariant Updated(hwCommands, s.hwCommands, taken, i)
        invariant Holds(config.casts, fs, commandBuffer[..], taken, i)
      {
        Lengths(hwCommands, s.hwCommands, taken, i);
        UpdatedOneMore(hwCommands, s.hwCommands, taken, i);
        HoldsOneMore(config.casts, fs, commandBuffer[..], taken, i);
        if i !in missed && !IsNaN(commandValues[i]) { hwCommands := hwCommands[i := commandValues[i]]; }
        WriteCommandField(config.casts, fs, commandBuffer, i, hwCommands[i]);
      }
      AllUpdated(hwCommands, s.hwCommands, taken);
      SlotsMakeTheBuffer(config.casts, fs, commandBuffer[..], taken);
    }

    /** write; what is published, if anything. */
    method Write(missed: set<nat>) returns (published: Option<seq<byte>>)
      requires Valid()
      modifies `hwCommands, commandBuffer
      ensures Valid() && View() == Step(config, old(View()), Op.Write(missed))
      ensures published == Published(config, old(View()), Op.Write(missed))
      ensures published.Some? <==> commandPub
      ensures forall i: nat :: i < |hwCommands| ==>
                hwCommands[i] == if commandPub && i !in missed && !IsNaN(commandValues[i]) then commandValues[i]
                                 else old(hwCommands[i])
    {
      hide IsNaN, Castable, Tiles, Packed, NoNaN, ValuesFit;
      if !commandPub { return None; }
      ghost var s := View();
      HeldValuesFit(config, s, missed);
      TakeAndPack(missed, s, Taken(s, missed));
      published := Some(commandBuffer[..]);
    }
  }

  lemma SameLength(c: Casts, fs: seq<FlatField>, vs: seq<Double>)
    requires ValuesFit(c, fs, vs)
    ensures |vs| == |fs|
  {}

  lemma HoldsNone(c: Casts, fs: seq<FlatField>, buf: seq<byte>, vs: seq<Double>)
    requires Tiles(fs, |buf|) && ValuesFit(c, fs, vs)
    ensures Holds(c, fs, buf, vs, 0)
  {}

  lemma HoldsOneMore(c: Casts, fs: seq<FlatField>, buf: seq<byte>, vs: seq<Double>, i: nat)
    requires Tiles(fs, |buf|) && ValuesFit(c, fs, vs) && i < |fs| && Holds(c, fs, buf, vs, i)
    ensures Writable(c, fs, i, vs[i]) && Holds(c, fs, Written(c, fs, buf, i, vs[i]), vs, i + 1)
  {
    hide Slot, Written, FieldBytes, Tiles;
    forall j | 0 <= j < i + 1
      ensures Slot(fs, Written(c, fs, buf, i, vs[i]), j) == FieldBytes(c, fs[j].type_, vs[j])
    {
      SlotAfterWrite(c, fs, buf, i, vs[i], j);
    }
  }
}
