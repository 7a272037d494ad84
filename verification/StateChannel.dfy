/**
 The outgoing half of a client: `write_state` patches the invisible slot of the double buffer in
 place, alternating slots, and `zenoh_publish_state` sends what is visible.
 */
module StateChannel {
  import opened Bytes
  import opened Cdr
  import opened Serialization
  import opened CdrConformance
  import opened DoubleBuffer

  datatype Which = Position | Velocity | Effort

  function Supplied(v: StateValue, w: Which): Option<seq<Double>> {
    match w
    case Position => v.positions
    case Velocity => v.velocities
    case Effort => v.efforts
  }

  function ZeroArray(n: nat): (ds: seq<Double>)
    ensures |ds| == n
  {
    if n == 0 then [] else ZeroArray(n - 1) + [ZERO]
  }

  predicate ValuesFit(values: seq<StateValue>, n: nat) {
    forall i :: 0 <= i < |values| ==> ValueFits(values[i], n)
  }

  /** An array of version k (numbered as in `DoubleBuffer.Version`): the one write k - 2 supplied,
      or else the one in the version that slot held before. */
  function Carried(values: seq<StateValue>, n: nat, w: Which, k: nat): (ds: seq<Double>)
    requires k < |values| + 2 && ValuesFit(values, n)
    ensures |ds| == n
  {
    if k < 2 then ZeroArray(n)
    else if Supplied(values[k - 2], w).Some? then Supplied(values[k - 2], w).value
    else Carried(values, n, w, k - 2)
  }

  /** The message version k stands for. */
  function Message(frame: CString, names: seq<CString>, values: seq<StateValue>, k: nat): (m: JointState)
    requires k < |values| + 2 && ValuesFit(values, |names|)
    ensures WellShaped(m)
  {
    JointState(if k < 2 then Stamp(0, 0) else values[k - 2].stamp, frame, names,
               Carried(values, |names|, Position, k), Carried(values, |names|, Velocity, k),
               Carried(values, |names|, Effort, k))
  }

  // ---- zeroed windows are zero values -------------------------------------------------------

  lemma {:induction false} FlatZeroArray(n: nat)
    ensures Flat(ZeroArray(n)) == Zeros(8 * n)
  {
    if n > 0 {
      FlatZeroArray(n - 1);
      assert ZeroArray(n)[..n - 1] == ZeroArray(n - 1);
      assert Zeros(8 * (n - 1)) + ZERO == Zeros(8 * n);
    }
  }

  lemma ZeroWindows(bg: seq<byte>, ctx: StateCtx, frame: CString, names: seq<CString>)
    requires ZeroBackground(bg) && ctx.numJoints == |names|
    requires ctx.offsetPosition >= 4 && ctx.offsetVelocity >= 4 && ctx.offsetEffort >= 4
    ensures BlankState(bg, ctx) == RawOf(Message(frame, names, [], 0))
  {
    var n := |names|;
    FlatZeroArray(n);
    assert Window(bg, 0, 8) == Zeros(8) == StampBytes(Stamp(0, 0));
    assert Window(bg, ctx.offsetPosition - 4, 8 * n) == Zeros(8 * n);
    assert Window(bg, ctx.offsetVelocity - 4, 8 * n) == Zeros(8 * n);
    assert Window(bg, ctx.offsetEffort - 4, 8 * n) == Zeros(8 * n);
  }

  /** A slot of the given capacity that shows message m and is otherwise zero. */
  ghost predicate Shows(slot: seq<byte>, m: JointState, capacity: nat) {
    && |EncodeJointState(m)| <= capacity
    && slot == EncodeJointState(m) + Zeros(capacity - |EncodeJointState(m)|)
  }

  lemma EncodingIsFramed(m: JointState, tail: seq<byte>)
    requires WellShaped(m) && |m.names| >= 1
    ensures EncodeJointState(m) + tail == Framed([], m.frame, m.names, RawOf(m), tail)
    ensures |EncodeJointState(m)| == StateLayout(m.frame, m.names).payloadSize
  {
    hide StateTemplate, StateLayout, JointStateBody;
    StateTemplateConforms([], m);
    StateTemplateLength([], m.frame, m.names, RawOf(m));
  }

  /** zcdr_init_joint_state on a zeroed slot leaves the encoding of the all-zero message. */
  lemma InitShowsZero(laid: seq<byte>, frame: CString, names: seq<CString>, capacity: nat)
    requires |names| >= 1 && StateLayout(frame, names).payloadSize <= capacity
    requires LaidOut(laid, Zeros(capacity),
                     StateTemplate(Zeros(capacity)[4..], frame, names,
                                   BlankState(Zeros(capacity)[4..], StateLayout(frame, names))))
    ensures Shows(laid, Message(frame, names, [], 0), capacity)
  {
    hide StateTemplate, StateLayout, JointStateBody, BlankState;
    var ctx, bg, m := StateLayout(frame, names), Zeros(capacity)[4..], Message(frame, names, [], 0);
    LayoutOffsets(frame, names);
    ZeroWindows(bg, ctx, frame, names);
    StateTemplateConforms(bg, m);
    StateBodyOnZero(bg, m);
    EncodingIsFramed(m, []);
  }

  // ---- every version is a message ------------------------------------------------------------

  /** The committed writes are those of `write_state` with these values. */
  ghost predicate WritesOf(ctx: StateCtx, values: seq<StateValue>, writes: seq<seq<Store>>) {
    |writes| == |values| && forall i :: 0 <= i < |values| ==> writes[i] == ByteStores(StateCopies(ctx, values[i]))
  }

  lemma PatchShown(slot: seq<byte>, m: JointState, v: StateValue, capacity: nat)
    requires WellShaped(m) && |m.names| >= 1 && ValueFits(v, |m.names|) && Shows(slot, m, capacity)
    ensures var ctx := StateLayout(m.frame, m.names);
      && StoresFit(ByteStores(StateCopies(ctx, v)), |slot|)
      && Shows(ApplyStores(slot, ByteStores(StateCopies(ctx, v))), Patched(m, v), capacity)
  {
    hide StateTemplate, StateLayout, JointStateBody, StateCopies, ByteStores, EncodeJointState, Framed;
    var ctx := StateLayout(m.frame, m.names);
    var tail := Zeros(capacity - |EncodeJointState(m)|);
    EncodingIsFramed(m, tail);
    EncodingIsFramed(Patched(m, v), tail);
    PatchingATemplate([], m.frame, m.names, RawOf(m), tail, v);
    assert Overlaid(RawOf(m), v) == RawOf(Patched(m, v));
    ByteStoresApply(slot, StateCopies(ctx, v));
  }

  function OrKeep(ds: Option<seq<Double>>, old_: seq<Double>): seq<Double> {
    if ds.None? then old_ else ds.value
  }

  function Patched(m: JointState, v: StateValue): JointState {
    m.(stamp := v.stamp, position := OrKeep(v.positions, m.position),
       velocity := OrKeep(v.velocities, m.velocity), effort := OrKeep(v.efforts, m.effort))
  }

  lemma {:induction false} VersionShowsMessage(
      slot: seq<byte>, frame: CString, names: seq<CString>, values: seq<StateValue>, writes: seq<seq<Store>>, k: nat)
    requires |names| >= 1 && ValuesFit(values, |names|) && k < |values| + 2
    requires WritesOf(StateLayout(frame, names), values, writes) && WritesFit(writes, |slot|)
    requires Shows(slot, Message(frame, names, [], 0), |slot|)
    ensures Shows(Version(slot, slot, writes, k), Message(frame, names, values, k), |slot|)
  {
    hide Shows, EncodeJointState, StateLayout, ByteStores, StateCopies;
    if k < 2 {
      assert Message(frame, names, values, k) == Message(frame, names, [], 0);
    } else {
      VersionShowsMessage(slot, frame, names, values, writes, k - 2);
      var m := Message(frame, names, values, k - 2);
      PatchShown(Version(slot, slot, writes, k - 2), m, values[k - 2], |slot|);
      assert Patched(m, values[k - 2]) == Message(frame, names, values, k);
    }
  }

  // ---- runs of the client --------------------------------------------------------------------

  /** The k-th, (k+1)-th, ... writes the run begins carry values[k], values[k + 1], ... */
  ghost predicate Carries(ctx: StateCtx, values: seq<StateValue>, run: seq<Step>, k: nat)
    decreases run
  {
    if run == [] then true
    else if run[0].Prepare? then
      k < |values| && run[0].stores == ByteStores(StateCopies(ctx, values[k])) && Carries(ctx, values, run[1..], k + 1)
    else Carries(ctx, values, run[1..], k)
  }

  /** So far the first `begun` values went into committed writes and the one in progress. */
  ghost predicate InStep(ctx: StateCtx, values: seq<StateValue>, s: State, begun: nat) {
    && begun == |s.writes| + (if s.writer.Filling? then 1 else 0) <= |values|
    && WritesOf(ctx, values[..|s.writes|], s.writes)
    && (s.writer.Filling? ==> s.writer.stores == ByteStores(StateCopies(ctx, values[|s.writes|])))
  }

  lemma {:induction false} RunStaysInStep(ctx: StateCtx, values: seq<StateValue>, s: State, run: seq<Step>, begun: nat)
    returns (b: nat)
    requires Shaped(s) && Legal(s, run) && InStep(ctx, values, s, begun) && Carries(ctx, values, run, begun)
    ensures InStep(ctx, values, After(s, run), b)
    decreases run
  {
    b := begun;
    if run != [] {
      if run[0].Prepare? { b := begun + 1; }
      StepStaysInStep(ctx, values, s, run[0], begun, b);
      b := RunStaysInStep(ctx, values, Do(s, run[0]), run[1..], b);
    }
  }

  lemma StepStaysInStep(ctx: StateCtx, values: seq<StateValue>, s: State, e: Step, begun: nat, b: nat)
    requires Shaped(s) && Enabled(s, e) && InStep(ctx, values, s, begun)
    requires e.Prepare? ==> begun < |values| && e.stores == ByteStores(StateCopies(ctx, values[begun]))
    requires b == if e.Prepare? then begun + 1 else begun
    ensures InStep(ctx, values, Do(s, e), b)
  {
    hide ByteStores, StateCopies;
  }

  /** What both slots hold after init. */
  ghost predicate StartsBlank(slot: seq<byte>, frame: CString, names: seq<CString>) {
    Shows(slot, Message(frame, names, [], 0), |slot|)
  }

  /** The run, from slots that both hold `slot`, ends in s and its writes carry the values. */
  ghost predicate Writes(slot: seq<byte>, ctx: StateCtx, values: seq<StateValue>, run: seq<Step>, s: State) {
    && Legal(Start(slot, slot), run) && Carries(ctx, values, run, 0)
    && Shaped(s) && s == After(Start(slot, slot), run)
  }

  /** After n committed writes: the payload encodes, and decodes to, version n + 1. */
  ghost predicate Publishes(out: seq<byte>, frame: CString, names: seq<CString>, values: seq<StateValue>, n: nat) {
    && n <= |values| && ValuesFit(values, |names|)
    && var m := Message(frame, names, values[..n], n + 1);
    && out == EncodeJointState(m) && DecodeJointState(out) == Got(m, |out|)
    && m.frame == frame && m.names == names && (n >= 1 ==> m.stamp == values[n - 1].stamp)
  }

  /** Every published payload, in every interleaving of `write_state` and any readers, is the
      CDR encoding of a JointState with the configured frame and names, the stamp of the last
      committed `write_state`, and arrays carried along their own slot; and it decodes to it. */
  lemma PublishedStateIsWellFormed(
      slot: seq<byte>, frame: CString, names: seq<CString>, values: seq<StateValue>, run: seq<Step>, s: State)
    requires |names| >= 1 && HeaderFits(frame, names) && ValuesFit(values, |names|)
    requires StartsBlank(slot, frame, names)
    requires Writes(slot, StateLayout(frame, names), values, run, s)
    requires s.lock.Held? && |s.lock.out| == s.lock.size == StateLayout(frame, names).payloadSize
    ensures Publishes(s.lock.out, frame, names, values, |s.writes|)
  {
    hide Shows, EncodeJointState, StateLayout, ByteStores, StateCopies, DecodeJointState, Version, Message;
    var ctx := StateLayout(frame, names);
    assert InStep(ctx, values, Start(slot, slot), 0);
    var _ := RunStaysInStep(ctx, values, Start(slot, slot), run, 0);
    ReadIsLatestCommit(slot, slot, run);
    var n := |s.writes|;
    VersionShowsMessage(slot, frame, names, values[..n], s.writes, n + 1);
    MessageFacts(frame, names, values[..n], n + 1);
    ShownPrefix(Version(slot, slot, s.writes, n + 1), Message(frame, names, values[..n], n + 1), |slot|);
  }

  lemma MessageFacts(frame: CString, names: seq<CString>, values: seq<StateValue>, k: nat)
    requires k < |values| + 2 && ValuesFit(values, |names|)
    ensures var m := Message(frame, names, values, k);
      WellShaped(m) && m.frame == frame && m.names == names && (k >= 2 ==> m.stamp == values[k - 2].stamp)
  {
  }

  lemma ShownPrefix(slot: seq<byte>, m: JointState, capacity: nat)
    requires Shows(slot, m, capacity) && WellShaped(m) && |m.names| >= 1 && HeaderFits(m.frame, m.names)
    ensures var size := StateLayout(m.frame, m.names).payloadSize;
      size <= |slot| && slot[..size] == EncodeJointState(m) && DecodeJointState(slot[..size]) == Got(m, size)
  {
    hide JointStateBody, StateLayout, DecodeJointState;
    EncodingIsFramed(m, []);
    assert HEADER + JointStateBody([], m) + [] == EncodeJointState(m);
    JointStateRoundTrip([], m, []);
  }

  /** What is carried: the array the last earlier write of the same slot supplied, or zeros if
      none of them did. */
  lemma {:induction false} CarriedFromLastSupplier(values: seq<StateValue>, n: nat, w: Which, k: nat)
    requires k < |values| + 2 && ValuesFit(values, n)
    ensures (exists j :: IsLastSupplier(values, w, k, j) && Carried(values, n, w, k) == Supplied(values[j], w).value)
         || (Carried(values, n, w, k) == ZeroArray(n) && NoneSupplied(values, w, k, -1))
  {
    hide Supplied, NoneSupplied;
    if k < 2 {
      NoneEarlier(values, w, k);
    } else if Supplied(values[k - 2], w).Some? {
      NoneBehind(values, w, k);
      assert IsLastSupplier(values, w, k, k - 2);
    } else {
      CarriedFromLastSupplier(values, n, w, k - 2);
      if j :| IsLastSupplier(values, w, k - 2, j) && Carried(values, n, w, k - 2) == Supplied(values[j], w).value {
        StillNone(values, w, k, j);
        assert IsLastSupplier(values, w, k, j);
      } else {
        StillNone(values, w, k, -1);
      }
    }
  }

  lemma NoneEarlier(values: seq<StateValue>, w: Which, k: nat)
    requires k < 2
    ensures NoneSupplied(values, w, k, -1)
  {}

  lemma NoneBehind(values: seq<StateValue>, w: Which, k: nat)
    requires 2 <= k < |values| + 2
    ensures NoneSupplied(values, w, k, k - 2)
  {}

  lemma StillNone(values: seq<StateValue>, w: Which, k: nat, j: int)
    requires 2 <= k < |values| + 2 && j >= -1
    requires NoneSupplied(values, w, k - 2, j) && Supplied(values[k - 2], w).None?
    ensures NoneSupplied(values, w, k, j)
  {
    hide Supplied;
    forall i | j < i <= k - 2 && (k - i) % 2 == 0 ensures Supplied(values[i], w).None? {
      if i < k - 2 { assert (k - 2 - i) % 2 == 0; }
    }
  }

  /** No write after j into the slot of version k, up to k itself, supplies w. */
  ghost predicate NoneSupplied(values: seq<StateValue>, w: Which, k: nat, j: int)
    requires k < |values| + 2 && j >= -1
  {
    forall i :: j < i <= k - 2 && (k - i) % 2 == 0 ==> Supplied(values[i], w).None?
  }

  /** Write j is the last one into the slot of version k that supplies w. */
  ghost predicate IsLastSupplier(values: seq<StateValue>, w: Which, k: nat, j: int)
    requires k < |values| + 2
  {
    && 0 <= j <= k - 2 && (k - j) % 2 == 0 && Supplied(values[j], w).Some?
    && NoneSupplied(values, w, k, j)
  }
}
