/**
 The template-then-patch codec of zenbedded_transport/src/serialization.c.

 `InitJointState` and `InitJointCommand` lay a whole message out once and remember where the
 stamp and the arrays live; the serializers later overwrite only those windows.  A template is
 described by `StateTemplate` / `CommandTemplate` over the bytes `bg` the buffer held before
 (they show through in alignment gaps and unwritten windows) and the raw bytes in the windows.
 */
module Serialization {
  import opened Bytes
  import opened Cdr

  datatype StateCtx = StateCtx(
    numJoints: nat, offsetTimestamp: nat, offsetPosition: nat, offsetVelocity: nat,
    offsetEffort: nat, payloadSize: nat)

  datatype CommandCtx = CommandCtx(
    numJoints: nat, offsetTimestamp: nat, offsetValues: nat, payloadSize: nat)

  /** Absent arrays are the null pointers of the C interface. */
  datatype StateValue = StateValue(
    stamp: Stamp, positions: Option<seq<Double>>, velocities: Option<seq<Double>>,
    efforts: Option<seq<Double>>)

  /** The macro ALIGN_UP: alignment relative to the end of the encapsulation header. */
  function AlignUp(offset: nat, a: nat): nat
    requires offset >= 4 && (a == 4 || a == 8)
  {
    4 + if a == 4 then (offset - 4 + 3) / 4 * 4 else (offset - 4 + 7) / 8 * 8
  }

  lemma AlignUpPads(n: nat, a: nat)
    requires a == 4 || a == 8
    ensures AlignUp(4 + n, a) == 4 + n + Pad(n, a)
  {
  }

  function Text(s: Option<CString>): CString { if s.None? then [] else s.value }

  // ---- layout ------------------------------------------------------------------------------

  function HeadLength(frame: CString, names: seq<CString>): nat {
    AfterStrings(AfterU32(AfterString(8, frame)), names)
  }

  /** First byte of an array whose count is written at or after n. */
  function ArrayStart(n: nat): (r: nat)
    ensures n + 4 <= r
  {
    AfterU32(n) + Pad(AfterU32(n), 8)
  }

  function StateLayout(frame: CString, names: seq<CString>): StateCtx {
    var n := |names|;
    var p := ArrayStart(HeadLength(frame, names));
    var v := ArrayStart(p + 8 * n);
    var e := ArrayStart(v + 8 * n);
    StateCtx(n, 4, 4 + p, 4 + v, 4 + e, 4 + e + 8 * n)
  }

  function CommandLayout(frame: CString, names: seq<CString>, interface_: CString): CommandCtx {
    var n := |names|;
    var v := ArrayStart(AfterString(HeadLength(frame, names), interface_));
    CommandCtx(n, 4, 4 + v, 4 + v + 8 * n)
  }

  // ---- templates ---------------------------------------------------------------------------

  /** The bytes in the windows that serializing overwrites. */
  datatype StateRaw = StateRaw(
    stamp: seq<byte>, position: seq<byte>, velocity: seq<byte>, effort: seq<byte>)

  predicate StateRawFits(raw: StateRaw, n: nat) {
    |raw.stamp| == 8 && |raw.position| == 8 * n && |raw.velocity| == 8 * n && |raw.effort| == 8 * n
  }

  function Head(bg: seq<byte>, stamp: seq<byte>, frame: CString, names: seq<CString>): (r: seq<byte>)
    requires |stamp| == 8
    ensures |r| == HeadLength(frame, names) && stamp <= r
  {
    PutStrings(bg, PutU32(bg, PutString(bg, stamp, frame), |names|), names)
  }

  /** A count, padding to 8 even when nothing follows, and the raw array. */
  function Block(bg: seq<byte>, out: seq<byte>, n: nat, raw: seq<byte>): (r: seq<byte>)
    ensures |r| == ArrayStart(|out|) + |raw| && out <= r
    ensures r[ArrayStart(|out|)..] == raw
  {
    Align(bg, PutU32(bg, out, n), 8) + raw
  }

  function Blocks(bg: seq<byte>, h: seq<byte>, n: nat, p: seq<byte>, v: seq<byte>, e: seq<byte>): seq<byte> {
    Block(bg, Block(bg, Block(bg, h, n, p), n, v), n, e)
  }

  function StateTemplate(bg: seq<byte>, frame: CString, names: seq<CString>, raw: StateRaw): seq<byte>
    requires StateRawFits(raw, |names|)
  {
    Blocks(bg, Head(bg, raw.stamp, frame, names), |names|, raw.position, raw.velocity, raw.effort)
  }

  function CommandTemplate(
      bg: seq<byte>, frame: CString, names: seq<CString>, interface_: CString,
      stamp: seq<byte>, values: seq<byte>): seq<byte>
    requires |stamp| == 8 && |values| == 8 * |names|
  {
    Block(bg, PutString(bg, Head(bg, stamp, frame, names), interface_), |names|, values)
  }

  lemma StateTemplateLength(bg: seq<byte>, frame: CString, names: seq<CString>, raw: StateRaw)
    requires StateRawFits(raw, |names|)
    ensures 4 + |StateTemplate(bg, frame, names, raw)| == StateLayout(frame, names).payloadSize
  {
    hide Pad, AfterU32, AfterString, AfterStrings, ArrayStart, Block, Head, HeadLength;
  }

  /** What the windows show before anything was serialized: the old buffer. */
  function BlankState(bg: seq<byte>, ctx: StateCtx): StateRaw
    requires ctx.offsetPosition >= 4 && ctx.offsetVelocity >= 4 && ctx.offsetEffort >= 4
  {
    StateRaw(Window(bg, 0, 8), Window(bg, ctx.offsetPosition - 4, 8 * ctx.numJoints),
             Window(bg, ctx.offsetVelocity - 4, 8 * ctx.numJoints),
             Window(bg, ctx.offsetEffort - 4, 8 * ctx.numJoints))
  }

  // ---- init --------------------------------------------------------------------------------

  /** The buffer is laid out up to and including `body`; the rest is as it was. */
  ghost predicate LaidOut(now: seq<byte>, was: seq<byte>, body: seq<byte>) {
    4 + |body| <= |was| && now == HEADER + body + was[4 + |body|..]
  }

  lemma CopyStep(now: seq<byte>, was: seq<byte>, body: seq<byte>, x: seq<byte>)
    requires LaidOut(now, was, body) && 4 + |body| + |x| <= |was|
    ensures LaidOut(Blit(now, 4 + |body|, x), was, body + x)
  {
    var c := 4 + |body|;
    assert now[..c] == HEADER + body;
    assert now[c + |x|..] == was[c + |x|..];
  }

  lemma SkipStep(now: seq<byte>, was: seq<byte>, body: seq<byte>, k: nat)
    requires LaidOut(now, was, body) && 4 + |body| + k <= |was|
    ensures LaidOut(now, was, body + Window(was[4..], |body|, k))
  {
    var c := 4 + |body|;
    var w := Window(was[4..], |body|, k);
    forall i | 0 <= i < k ensures w[i] == was[c..][i] {
      assert was[4..][|body| + i] == was[c + i];
    }
    assert was[c..] == w + was[c + k..];
  }

  method WriteCount(out: array<byte>, at: nat, n: nat, ghost was: seq<byte>, ghost body: seq<byte>)
    returns (cursor: nat)
    requires LaidOut(out[..], was, body) && at == 4 + |body|
    requires 4 + AfterU32(|body|) <= out.Length
    modifies out
    ensures LaidOut(out[..], was, PutU32(was[4..], body, n))
    ensures cursor == 4 + AfterU32(|body|)
  {
    AlignUpPads(|body|, 4);
    SkipStep(out[..], was, body, Pad(|body|, 4));
    cursor := AlignUp(at, 4);
    CopyStep(out[..], was, Align(was[4..], body, 4), Le32(n));
    Memcpy(out, cursor, Le32(n));
    cursor := cursor + 4;
  }

  /** A string's length and characters; the cursor is already aligned. */
  method WriteString(out: array<byte>, at: nat, s: CString, ghost was: seq<byte>, ghost body: seq<byte>)
    returns (cursor: nat)
    requires LaidOut(out[..], was, body) && at == 4 + |body| && Pad(|body|, 4) == 0
    requires 4 + AfterString(|body|, s) <= out.Length
    modifies out
    ensures LaidOut(out[..], was, PutString(was[4..], body, s))
    ensures cursor == 4 + AfterString(|body|, s)
  {
    assert Align(was[4..], body, 4) == body;
    CopyStep(out[..], was, body, Le32(|s| + 1));
    Memcpy(out, at, Le32(|s| + 1));
    cursor := at + 4;
    CopyStep(out[..], was, PutU32(was[4..], body, |s| + 1), s + [0]);
    Memcpy(out, cursor, s + [0]);
    assert PutU32(was[4..], body, |s| + 1) + (s + [0]) == PutString(was[4..], body, s);
    cursor := cursor + |s| + 1;
  }

  lemma AlignedString(bg: seq<byte>, body: seq<byte>, s: CString)
    ensures PutString(bg, Align(bg, body, 4), s) == PutString(bg, body, s)
    ensures AfterString(|Align(bg, body, 4)|, s) == AfterString(|body|, s)
  {
    var a := Align(bg, body, 4);
    assert Pad(|a|, 4) == 0;
    assert Align(bg, a, 4) == a;
  }

  lemma {:induction false} AfterStringsGrows(n: nat, ss: seq<CString>, i: nat)
    requires i <= |ss|
    ensures AfterStrings(n, ss[..i]) <= AfterStrings(n, ss)
  {
    if i < |ss| {
      assert ss[..|ss| - 1][..i] == ss[..i];
      AfterStringsGrows(n, ss[..|ss| - 1], i);
    } else {
      assert ss[..i] == ss;
    }
  }

  /** ALIGN_UP to 4, then the string. */
  method WriteAlignedString(out: array<byte>, at: nat, s: CString, ghost was: seq<byte>, ghost body: seq<byte>)
    returns (cursor: nat)
    requires LaidOut(out[..], was, body) && at == 4 + |body|
    requires 4 + AfterString(|body|, s) <= out.Length
    modifies out
    ensures LaidOut(out[..], was, PutString(was[4..], body, s))
    ensures cursor == 4 + AfterString(|body|, s)
  {
    AlignUpPads(|body|, 4);
    SkipStep(out[..], was, body, Pad(|body|, 4));
    AlignedString(was[4..], body, s);
    cursor := AlignUp(at, 4);
    cursor := WriteString(out, cursor, s, was, Align(was[4..], body, 4));
  }

  method WriteNames(names: seq<CString>, out: array<byte>, at: nat, ghost was: seq<byte>, ghost body: seq<byte>)
    returns (cursor: nat)
    requires LaidOut(out[..], was, body) && at == 4 + |body|
    requires 4 + AfterStrings(|body|, names) <= out.Length
    modifies out
    ensures LaidOut(out[..], was, PutStrings(was[4..], body, names))
    ensures cursor == 4 + AfterStrings(|body|, names)
  {
    cursor := at;
    for i := 0 to |names|
      invariant cursor == 4 + AfterStrings(|body|, names[..i])
      invariant LaidOut(out[..], was, PutStrings(was[4..], body, names[..i]))
    {
      assert names[..i + 1][..i] == names[..i];
      AfterStringsGrows(|body|, names, i + 1);
      cursor := WriteAlignedString(out, cursor, names[i], was, PutStrings(was[4..], body, names[..i]));
    }
    assert names[..|names|] == names;
  }

  method WriteHead(frameId: Option<CString>, names: seq<CString>, out: array<byte>)
    returns (cursor: nat)
    requires 4 + HeadLength(Text(frameId), names) <= out.Length
    modifies out
    ensures cursor == 4 + HeadLength(Text(frameId), names)
    ensures LaidOut(out[..], old(out[..]),
                    Head(old(out[4..]), Window(old(out[4..]), 0, 8), Text(frameId), names))
  {
    ghost var was := out[..];
    AfterStringsGrows(AfterU32(AfterString(8, Text(frameId))), names, 0);
    Memcpy(out, 0, HEADER);
    SkipStep(out[..], was, [], 8);
    ghost var body := Window(was[4..], 0, 8);
    assert [] + body == body;
    cursor := WriteString(out, 12, Text(frameId), was, body);
    body := PutString(was[4..], body, Text(frameId));
    cursor := WriteCount(out, cursor, |names|, was, body);
    cursor := WriteNames(names, out, cursor, was, PutU32(was[4..], body, |names|));
  }

  /** One `count, pad to 8, leave room` block; the room is computed in 32-bit arithmetic. */
  method WriteBlock(out: array<byte>, at: nat, n: uint32, ghost was: seq<byte>, ghost body: seq<byte>)
    returns (offset: nat, cursor: nat)
    requires LaidOut(out[..], was, body) && at == 4 + |body|
    requires 4 + ArrayStart(|body|) + 8 * n <= out.Length < WORD_RANGE
    modifies out
    ensures offset == 4 + ArrayStart(|body|) && cursor == offset + 8 * n
    ensures LaidOut(out[..], was, Block(was[4..], body, n, Window(was[4..], ArrayStart(|body|), 8 * n)))
  {
    hide Pad, AlignUp, AfterU32, PutU32;
    cursor := WriteCount(out, at, n, was, body);
    ghost var b := PutU32(was[4..], body, n);
    AlignUpPads(|b|, 8);
    SkipStep(out[..], was, b, Pad(|b|, 8));
    cursor := AlignUp(cursor, 8);
    offset := cursor;
    SkipStep(out[..], was, Align(was[4..], b, 8), 8 * n);
    cursor := cursor + 8 * n % WORD_RANGE;
  }

  /** The three arrays of a JointState, one block each. */
  method WriteBlocks(out: array<byte>, at: nat, n: uint32, ghost was: seq<byte>, ghost body: seq<byte>)
    returns (position: nat, velocity: nat, effort: nat, cursor: nat)
    requires LaidOut(out[..], was, body) && at == 4 + |body|
    requires 4 + ArrayStart(ArrayStart(ArrayStart(|body|) + 8 * n) + 8 * n) + 8 * n <= out.Length < WORD_RANGE
    modifies out
    ensures position == 4 + ArrayStart(|body|)
    ensures velocity == 4 + ArrayStart(position - 4 + 8 * n)
    ensures effort == 4 + ArrayStart(velocity - 4 + 8 * n)
    ensures cursor == effort + 8 * n
    ensures var bg := was[4..];
      LaidOut(out[..], was, Blocks(bg, body, n, Window(bg, position - 4, 8 * n),
                                   Window(bg, velocity - 4, 8 * n), Window(bg, effort - 4, 8 * n)))
  {
    hide Pad, AfterU32, ArrayStart, Block;
    ghost var b := body;
    position, cursor := WriteBlock(out, at, n, was, b);
    b := Block(was[4..], b, n, Window(was[4..], position - 4, 8 * n));
    velocity, cursor := WriteBlock(out, cursor, n, was, b);
    b := Block(was[4..], b, n, Window(was[4..], velocity - 4, 8 * n));
    effort, cursor := WriteBlock(out, cursor, n, was, b);
  }

  /** zcdr_init_joint_state.  Whatever the buffer held, afterwards it is the template of this
      frame and these joints over the old bytes; bytes behind the payload are untouched. */
  method InitJointState(frameId: Option<CString>, names: seq<CString>, out: array<byte>)
    returns (ctx: StateCtx)
    requires StateLayout(Text(frameId), names).payloadSize <= out.Length < WORD_RANGE
    modifies out
    ensures ctx == StateLayout(Text(frameId), names)
    ensures LaidOut(out[..], old(out[..]),
                    StateTemplate(old(out[4..]), Text(frameId), names, BlankState(old(out[4..]), ctx)))
  {
    hide Pad, AfterU32, ArrayStart, AfterString, AfterStrings, HeadLength, Block, Head;
    ghost var was := out[..];
    var cursor := WriteHead(frameId, names, out);
    ghost var head := Head(was[4..], Window(was[4..], 0, 8), Text(frameId), names);
    var position, velocity, effort;
    position, velocity, effort, cursor := WriteBlocks(out, cursor, |names|, was, head);
    ctx := StateCtx(|names|, 4, position, velocity, effort, cursor);
  }

  /** zcdr_init_joint_command. */
  method InitJointCommand(
      frameId: Option<CString>, names: seq<CString>, interfaceName: Option<CString>, out: array<byte>)
    returns (ctx: CommandCtx)
    requires CommandLayout(Text(frameId), names, Text(interfaceName)).payloadSize <= out.Length < WORD_RANGE
    modifies out
    ensures ctx == CommandLayout(Text(frameId), names, Text(interfaceName))
    ensures LaidOut(out[..], old(out[..]),
                    CommandTemplate(old(out[4..]), Text(frameId), names, Text(interfaceName),
                                    Window(old(out[4..]), 0, 8),
                                    Window(old(out[4..]), ctx.offsetValues - 4, 8 * |names|)))
  {
    hide AfterU32, ArrayStart, AfterString, AfterStrings, HeadLength, Block, Head, PutString, Text, Window;
    ghost var was := out[..];
    var frame, interface_, values := Text(frameId), Text(interfaceName), 0;
    var cursor := WriteHead(frameId, names, out);
    ghost var head := Head(was[4..], Window(was[4..], 0, 8), frame, names);
    cursor := WriteAlignedString(out, cursor, interface_, was, head);
    values, cursor := WriteBlock(out, cursor, |names|, was, PutString(was[4..], head, interface_));
    ctx := CommandCtx(|names|, 4, values, cursor);
  }

  // ---- serialize ---------------------------------------------------------------------------

  function Flat(ds: seq<Double>): (b: seq<byte>)
    ensures |b| == 8 * |ds|
  {
    if ds == [] then [] else Flat(ds[..|ds| - 1]) + ds[|ds| - 1]
  }

  function StampBytes(stamp: Stamp): (b: seq<byte>)
    ensures |b| == 8
  {
    Le32(Unsigned(stamp.sec)) + Le32(stamp.nanosec)
  }

  function CopyOf(at: nat, ds: Option<seq<Double>>): seq<Copy> {
    if ds.None? then [] else [Copy(at, Flat(ds.value))]
  }

  /** The memory traffic of one zcdr_serialize_joint_state, in program order. */
  function StateCopies(ctx: StateCtx, v: StateValue): seq<Copy> {
    [Copy(ctx.offsetTimestamp, Le32(Unsigned(v.stamp.sec))),
     Copy(ctx.offsetTimestamp + 4, Le32(v.stamp.nanosec))]
    + CopyOf(ctx.offsetPosition, v.positions)
    + CopyOf(ctx.offsetVelocity, v.velocities)
    + CopyOf(ctx.offsetEffort, v.efforts)
  }

  function CommandCopies(ctx: CommandCtx, stamp: Stamp, values: Option<seq<Double>>): seq<Copy> {
    [Copy(ctx.offsetTimestamp, Le32(Unsigned(stamp.sec))),
     Copy(ctx.offsetTimestamp + 4, Le32(stamp.nanosec))]
    + CopyOf(ctx.offsetValues, values)
  }

  /** The arrays a caller hands over hold one value per joint. */
  predicate ArrayFits(ds: Option<seq<Double>>, n: nat) { ds.Some? ==> |ds.value| == n }

  predicate ValueFits(v: StateValue, n: nat) {
    ArrayFits(v.positions, n) && ArrayFits(v.velocities, n) && ArrayFits(v.efforts, n)
  }

  predicate StateCtxFits(ctx: StateCtx, size: nat) {
    && ctx.offsetTimestamp + 8 <= size && ctx.offsetPosition + 8 * ctx.numJoints <= size
    && ctx.offsetVelocity + 8 * ctx.numJoints <= size && ctx.offsetEffort + 8 * ctx.numJoints <= size
  }

  lemma StateCopiesFit(ctx: StateCtx, v: StateValue, size: nat)
    requires StateCtxFits(ctx, size) && ValueFits(v, ctx.numJoints)
    ensures CopiesFit(StateCopies(ctx, v), size)
  {
  }

  method CopyArray(out: array<byte>, at: nat, ds: Option<seq<Double>>, ghost was: seq<byte>, ghost done: seq<Copy>)
    requires CopiesFit(done, |was|) && out[..] == ApplyCopies(was, done)
    requires ds.Some? ==> at + 8 * |ds.value| <= out.Length
    modifies out
    ensures CopiesFit(done + CopyOf(at, ds), |was|)
    ensures out[..] == ApplyCopies(was, done + CopyOf(at, ds))
  {
    if ds.Some? {
      ApplyOneMore(was, done, Copy(at, Flat(ds.value)));
      Memcpy(out, at, Flat(ds.value));
    } else {
      assert done + CopyOf(at, ds) == done;
    }
  }

  /** zcdr_serialize_joint_state. */
  method SerializeJointState(ctx: StateCtx, v: StateValue, out: array<byte>)
    requires StateCtxFits(ctx, out.Length) && ValueFits(v, ctx.numJoints)
    modifies out
    ensures CopiesFit(StateCopies(ctx, v), out.Length)
    ensures out[..] == ApplyCopies(old(out[..]), StateCopies(ctx, v))
  {
    ghost var was := out[..];
    var sec, nanosec := Le32(Unsigned(v.stamp.sec)), Le32(v.stamp.nanosec);
    ghost var c0 := Copy(ctx.offsetTimestamp, sec);
    ghost var c1 := Copy(ctx.offsetTimestamp + 4, nanosec);
    ApplyOneMore(was, [], c0);
    ApplyOneMore(was, [c0], c1);
    assert [] + [c0] == [c0] && [c0] + [c1] == [c0, c1];
    Memcpy(out, ctx.offsetTimestamp, sec);
    Memcpy(out, ctx.offsetTimestamp + 4, nanosec);
    ghost var done := [c0, c1];
    CopyArray(out, ctx.offsetPosition, v.positions, was, done);
    done := done + CopyOf(ctx.offsetPosition, v.positions);
    CopyArray(out, ctx.offsetVelocity, v.velocities, was, done);
    done := done + CopyOf(ctx.offsetVelocity, v.velocities);
    CopyArray(out, ctx.offsetEffort, v.efforts, was, done);
  }

  /** zcdr_serialize_joint_command. */
  method SerializeJointCommand(ctx: CommandCtx, stamp: Stamp, values: Option<seq<Double>>, out: array<byte>)
    requires ctx.offsetTimestamp + 8 <= out.Length && ctx.offsetValues + 8 * ctx.numJoints <= out.Length
    requires ArrayFits(values, ctx.numJoints)
    modifies out
    ensures CopiesFit(CommandCopies(ctx, stamp, values), out.Length)
    ensures out[..] == ApplyCopies(old(out[..]), CommandCopies(ctx, stamp, values))
  {
    ghost var was := out[..];
    var sec, nanosec := Le32(Unsigned(stamp.sec)), Le32(stamp.nanosec);
    ghost var c0 := Copy(ctx.offsetTimestamp, sec);
    ghost var c1 := Copy(ctx.offsetTimestamp + 4, nanosec);
    ApplyOneMore(was, [], c0);
    ApplyOneMore(was, [c0], c1);
    assert [] + [c0] == [c0] && [c0] + [c1] == [c0, c1];
    Memcpy(out, ctx.offsetTimestamp, sec);
    Memcpy(out, ctx.offsetTimestamp + 4, nanosec);
    CopyArray(out, ctx.offsetValues, values, was, [c0, c1]);
  }

  // ---- deserialize -------------------------------------------------------------------------

  function ReadStamp(b: seq<byte>, at: nat): Stamp
    requires at + 8 <= |b|
  {
    Stamp(Signed(FromLe32(b[at..at + 4])), FromLe32(b[at + 4..at + 8]))
  }

  function ReadArray(b: seq<byte>, at: nat, n: nat): seq<Double>
    requires at + 8 * n <= |b|
  {
    seq<Double>(n, (i: nat) requires i < n => b[at + 8 * i..at + 8 * i + 8])
  }

  /** zcdr_deserialize_joint_state: nothing is looked at but the size. */
  function DeserializeJointState(ctx: StateCtx, b: seq<byte>): Option<(Stamp, seq<Double>, seq<Double>, seq<Double>)>
    requires StateCtxFits(ctx, ctx.payloadSize)
  {
    if |b| < ctx.payloadSize then None
    else
      Some((ReadStamp(b, ctx.offsetTimestamp), ReadArray(b, ctx.offsetPosition, ctx.numJoints),
            ReadArray(b, ctx.offsetVelocity, ctx.numJoints), ReadArray(b, ctx.offsetEffort, ctx.numJoints)))
  }

  /** zcdr_deserialize_joint_command. */
  function DeserializeJointCommand(ctx: CommandCtx, b: seq<byte>): Option<(Stamp, seq<Double>)>
    requires ctx.offsetTimestamp + 8 <= ctx.payloadSize
    requires ctx.offsetValues + 8 * ctx.numJoints <= ctx.payloadSize
  {
    if |b| < ctx.payloadSize then None
    else Some((ReadStamp(b, ctx.offsetTimestamp), ReadArray(b, ctx.offsetValues, ctx.numJoints)))
  }
}
