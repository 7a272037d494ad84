/** What the template codec of `Serialization` means in terms of the reference codec of `Cdr`. */
module CdrConformance {
  import opened Bytes
  import opened Cdr
  import opened Serialization

  // ---- the background shows only where it is looked at --------------------------------------

  ghost predicate ZeroBackground(bg: seq<byte>) { forall i: nat :: At(bg, i) == 0 }

  lemma AlignOnZero(bg: seq<byte>, out: seq<byte>, a: nat)
    requires ZeroBackground(bg) && (a == 4 || a == 8)
    ensures Align(bg, out, a) == Align([], out, a)
  {
    assert Window(bg, |out|, Pad(|out|, a)) == Window([], |out|, Pad(|out|, a));
  }

  lemma {:induction false} StringsOnZero(bg: seq<byte>, out: seq<byte>, ss: seq<CString>)
    requires ZeroBackground(bg)
    ensures PutStrings(bg, out, ss) == PutStrings([], out, ss)
  {
    if ss != [] {
      StringsOnZero(bg, out, ss[..|ss| - 1]);
      AlignOnZero(bg, PutStrings(bg, out, ss[..|ss| - 1]), 4);
    }
  }

  lemma {:induction false} F64sOnZero(bg: seq<byte>, out: seq<byte>, ds: seq<Double>)
    requires ZeroBackground(bg)
    ensures PutF64s(bg, out, ds) == PutF64s([], out, ds)
  {
    if ds != [] {
      F64sOnZero(bg, out, ds[..|ds| - 1]);
      AlignOnZero(bg, PutF64s(bg, out, ds[..|ds| - 1]), 8);
    }
  }

  lemma F64SeqOnZero(bg: seq<byte>, out: seq<byte>, ds: seq<Double>)
    requires ZeroBackground(bg)
    ensures PutF64Seq(bg, out, ds) == PutF64Seq([], out, ds)
  {
    AlignOnZero(bg, out, 4);
    F64sOnZero(bg, PutU32(bg, out, |ds|), ds);
  }

  lemma HeaderOnZero(bg: seq<byte>, stamp: Stamp, frame: CString, names: seq<CString>)
    requires ZeroBackground(bg)
    ensures PutHeader(bg, stamp, frame, names) == PutHeader([], stamp, frame, names)
  {
    var t0 := PutU32([], [], Unsigned(stamp.sec));
    var t1 := PutU32([], t0, stamp.nanosec);
    var t2 := PutString([], t1, frame);
    AlignOnZero(bg, [], 4);
    AlignOnZero(bg, t0, 4);
    AlignOnZero(bg, t1, 4);
    AlignOnZero(bg, t2, 4);
    StringsOnZero(bg, PutU32([], t2, |names|), names);
  }

  lemma StateBodyOnZero(bg: seq<byte>, m: JointState)
    requires ZeroBackground(bg)
    ensures JointStateBody(bg, m) == JointStateBody([], m)
  {
    hide PutF64Seq, PutHeader;
    var h := PutHeader([], m.stamp, m.frame, m.names);
    HeaderOnZero(bg, m.stamp, m.frame, m.names);
    F64SeqOnZero(bg, h, m.position);
    F64SeqOnZero(bg, PutF64Seq([], h, m.position), m.velocity);
    F64SeqOnZero(bg, PutF64Seq([], PutF64Seq([], h, m.position), m.velocity), m.effort);
  }

  // ---- templates against the reference encoder ----------------------------------------------

  lemma AlreadyAligned(bg: seq<byte>, out: seq<byte>)
    requires |out| % 8 == 0
    ensures Align(bg, out, 8) == out
  {
    assert Pad(|out|, 8) == 0;
  }

  lemma AlignedLength(bg: seq<byte>, out: seq<byte>)
    ensures |Align(bg, out, 8)| % 8 == 0
  {}

  lemma {:induction false} F64sAreFlat(bg: seq<byte>, out: seq<byte>, ds: seq<Double>)
    requires ds != []
    ensures PutF64s(bg, out, ds) == Align(bg, out, 8) + Flat(ds)
  {
    hide Align, Pad;
    var init, last := ds[..|ds| - 1], ds[|ds| - 1];
    var a := Align(bg, out, 8);
    if init == [] {
      assert Flat(ds) == last;
    } else {
      F64sAreFlat(bg, out, init);
      AlignedLength(bg, out);
      AlreadyAligned(bg, a + Flat(init));
      assert (a + Flat(init)) + last == a + (Flat(init) + last);
    }
  }

  /** The code pads after the count of an array even when no element follows. */
  lemma BlockAgainstSequence(bg: seq<byte>, out: seq<byte>, ds: seq<Double>)
    ensures ds != [] ==> Block(bg, out, |ds|, Flat(ds)) == PutF64Seq(bg, out, ds)
    ensures ds == [] ==> |PutF64Seq(bg, out, ds)| == AfterU32(|out|)
    ensures ds == [] ==>
              (Block(bg, out, |ds|, Flat(ds)) == PutF64Seq(bg, out, ds) <==> AfterU32(|out|) % 8 == 0)
  {
    hide AfterU32, PutU32;
    var c := PutU32(bg, out, |ds|);
    if ds != [] {
      hide Align, PutF64s;
      F64sAreFlat(bg, c, ds);
    } else {
      assert |Block(bg, out, |ds|, Flat(ds))| == |c| + Pad(|c|, 8);
      if |c| % 8 == 0 { assert Align(bg, c, 8) + [] == c; }
    }
  }

  lemma HeadIsHeader(bg: seq<byte>, stamp: Stamp, frame: CString, names: seq<CString>)
    ensures Head(bg, StampBytes(stamp), frame, names) == PutHeader(bg, stamp, frame, names)
  {
    var t0 := PutU32(bg, [], Unsigned(stamp.sec));
    assert t0 == Le32(Unsigned(stamp.sec));
    assert PutU32(bg, t0, stamp.nanosec) == StampBytes(stamp);
  }

  /** One value per joint in every array. */
  predicate WellShaped(m: JointState) {
    |m.position| == |m.names| && |m.velocity| == |m.names| && |m.effort| == |m.names|
  }

  function RawOf(m: JointState): (r: StateRaw)
    requires WellShaped(m)
    ensures StateRawFits(r, |m.names|)
  {
    StateRaw(StampBytes(m.stamp), Flat(m.position), Flat(m.velocity), Flat(m.effort))
  }

  /** The laid-out and patched template is the reference encoding exactly when there is at
      least one joint.  (Without joints the first or the second gap is four bytes too many.) */
  lemma StateTemplateConforms(bg: seq<byte>, m: JointState)
    requires WellShaped(m)
    ensures StateTemplate(bg, m.frame, m.names, RawOf(m)) == JointStateBody(bg, m) <==> |m.names| >= 1
  {
    hide Head, PutHeader, Block, PutF64Seq;
    var h := PutHeader(bg, m.stamp, m.frame, m.names);
    HeadIsHeader(bg, m.stamp, m.frame, m.names);
    BlockAgainstSequence(bg, h, m.position);
    var t1 := PutF64Seq(bg, h, m.position);
    BlockAgainstSequence(bg, t1, m.velocity);
    var t2 := PutF64Seq(bg, t1, m.velocity);
    BlockAgainstSequence(bg, t2, m.effort);
    if |m.names| == 0 {
      EmptyBlocksGrow(|h|);
      assert |JointStateBody(bg, m)| == AfterU32(AfterU32(AfterU32(|h|)));
    }
  }

  lemma U32OnMultipleOf4(n: nat)
    requires n % 4 == 0
    ensures AfterU32(n) == n + 4
  {
  }

  lemma EmptyBlockOnMultipleOf8(n: nat)
    requires n % 8 == 0
    ensures ArrayStart(n) == n + 8
  {
    hide AfterU32, Pad8;
    U32OnMultipleOf4(n);
    PadBehindACount(n);
  }

  lemma PadBehindACount(n: nat)
    requires n % 8 == 0
    ensures Pad8(n + 4) == 4
  {
    var k := n / 8;
    assert (n + 4 + 7) / 8 == k + 1;
  }

  lemma EmptyBlocksGrow(k: nat)
    ensures ArrayStart(ArrayStart(ArrayStart(k))) > AfterU32(AfterU32(AfterU32(k)))
  {
    var a, b := ArrayStart(k), AfterU32(k);
    U32OnMultipleOf4(b);
    U32OnMultipleOf4(b + 4);
    EmptyBlockOnMultipleOf8(a);
    EmptyBlockOnMultipleOf8(a + 8);
  }

  /** For commands the one array is last, so without joints the template still conforms when
      its count happens to end on a multiple of eight. */
  lemma CommandTemplateConforms(bg: seq<byte>, m: JointCommand)
    requires |m.values| == |m.names|
    ensures CommandTemplate(bg, m.frame, m.names, m.interface_, StampBytes(m.stamp), Flat(m.values))
         == JointCommandBody(bg, m)
       <==> |m.names| >= 1 || AfterU32(AfterString(HeadLength(m.frame, m.names), m.interface_)) % 8 == 0
  {
    hide Head, PutHeader, Block, PutF64Seq;
    HeadIsHeader(bg, m.stamp, m.frame, m.names);
    var h := PutHeader(bg, m.stamp, m.frame, m.names);
    BlockAgainstSequence(bg, PutString(bg, h, m.interface_), m.values);
  }

  // ---- patching ----------------------------------------------------------------------------

  lemma BlitPair(s: seq<byte>, at: nat, x: seq<byte>, y: seq<byte>)
    requires at + |x| + |y| <= |s|
    ensures Blit(Blit(s, at, x), at + |x|, y) == Blit(s, at, x + y)
  {
    var t := Blit(s, at, x);
    assert t[..at + |x|] == s[..at] + x;
    assert t[at + |x| + |y|..] == s[at + |x| + |y|..];
  }

  lemma BlitStaysInU32(bg: seq<byte>, out: seq<byte>, n: nat, at: nat, x: seq<byte>)
    requires at + |x| <= |out|
    ensures Blit(PutU32(bg, out, n), at, x) == PutU32(bg, Blit(out, at, x), n)
  {
    var w := Window(bg, |out|, Pad(|out|, 4));
    BlitPrefix(out, w, at, x);
    BlitPrefix(out + w, Le32(n), at, x);
  }

  lemma BlitStaysInString(bg: seq<byte>, out: seq<byte>, s: CString, at: nat, x: seq<byte>)
    requires at + |x| <= |out|
    ensures Blit(PutString(bg, out, s), at, x) == PutString(bg, Blit(out, at, x), s)
  {
    BlitStaysInU32(bg, out, |s| + 1, at, x);
    BlitPrefix(PutU32(bg, out, |s| + 1), s, at, x);
    BlitPrefix(PutU32(bg, out, |s| + 1) + s, [0], at, x);
  }

  lemma {:induction false} BlitStaysInStrings(bg: seq<byte>, out: seq<byte>, ss: seq<CString>, at: nat, x: seq<byte>)
    requires at + |x| <= |out|
    ensures Blit(PutStrings(bg, out, ss), at, x) == PutStrings(bg, Blit(out, at, x), ss)
  {
    if ss != [] {
      BlitStaysInStrings(bg, out, ss[..|ss| - 1], at, x);
      BlitStaysInString(bg, PutStrings(bg, out, ss[..|ss| - 1]), ss[|ss| - 1], at, x);
    }
  }

  /** A block's own window, */
  lemma BlitOwnWindow(bg: seq<byte>, out: seq<byte>, n: nat, raw: seq<byte>, x: seq<byte>)
    requires |x| == |raw|
    ensures ArrayStart(|out|) + |x| == |Block(bg, out, n, raw)|
    ensures Blit(Block(bg, out, n, raw), ArrayStart(|out|), x) == Block(bg, out, n, x)
  {
  }

  /** and what precedes a block, can be overwritten without disturbing the rest. */
  lemma BlitUnderBlock(bg: seq<byte>, out: seq<byte>, n: nat, raw: seq<byte>, at: nat, x: seq<byte>)
    requires at + |x| <= |out|
    ensures |out| <= |Block(bg, out, n, raw)|
    ensures Blit(Block(bg, out, n, raw), at, x) == Block(bg, Blit(out, at, x), n, raw)
  {
    var c := PutU32(bg, out, n);
    BlitStaysInU32(bg, out, n, at, x);
    BlitPrefix(c, Window(bg, |c|, Pad(|c|, 8)), at, x);
    BlitPrefix(Align(bg, c, 8), raw, at, x);
  }

  lemma BlitStamp(bg: seq<byte>, stamp: seq<byte>, frame: CString, names: seq<CString>, x: seq<byte>)
    requires |stamp| == 8 && |x| == 8
    ensures Blit(Head(bg, stamp, frame, names), 0, x) == Head(bg, x, frame, names)
  {
    var t1 := PutString(bg, stamp, frame);
    assert Blit(stamp, 0, x) == x;
    BlitStaysInString(bg, stamp, frame, 0, x);
    BlitStaysInU32(bg, t1, |names|, 0, x);
    BlitStaysInStrings(bg, PutU32(bg, t1, |names|), names, 0, x);
  }

  function OrElse(ds: Option<seq<Double>>, raw: seq<byte>): seq<byte> {
    if ds.None? then raw else Flat(ds.value)
  }

  /** An absent array leaves its window alone. */
  function Overlaid(raw: StateRaw, v: StateValue): StateRaw {
    StateRaw(StampBytes(v.stamp), OrElse(v.positions, raw.position),
             OrElse(v.velocities, raw.velocity), OrElse(v.efforts, raw.effort))
  }

  /** Each of the four windows can be overwritten without disturbing anything else. */
  lemma PatchStampWindow(bg: seq<byte>, frame: CString, names: seq<CString>, raw: StateRaw, x: seq<byte>)
    requires StateRawFits(raw, |names|) && |x| == 8
    ensures |StateTemplate(bg, frame, names, raw)| >= 8
    ensures Blit(StateTemplate(bg, frame, names, raw), 0, x)
         == StateTemplate(bg, frame, names, raw.(stamp := x))
  {
    hide Block, Head, ArrayStart;
    var n := |names|;
    var h := Head(bg, raw.stamp, frame, names);
    var t1 := Block(bg, h, n, raw.position);
    var t2 := Block(bg, t1, n, raw.velocity);
    BlitStamp(bg, raw.stamp, frame, names, x);
    BlitUnderBlock(bg, h, n, raw.position, 0, x);
    BlitUnderBlock(bg, t1, n, raw.velocity, 0, x);
    BlitUnderBlock(bg, t2, n, raw.effort, 0, x);
  }

  lemma PatchFirst(bg: seq<byte>, h: seq<byte>, n: nat, p: seq<byte>, v: seq<byte>, e: seq<byte>, x: seq<byte>)
    requires |x| == |p|
    ensures ArrayStart(|h|) + |x| <= |Blocks(bg, h, n, p, v, e)|
    ensures Blit(Blocks(bg, h, n, p, v, e), ArrayStart(|h|), x) == Blocks(bg, h, n, x, v, e)
  {
    hide Block, ArrayStart, Blit;
    BlitOwnWindow(bg, h, n, p, x);
    BlitUnderBlock(bg, Block(bg, h, n, p), n, v, ArrayStart(|h|), x);
    BlitUnderBlock(bg, Block(bg, Block(bg, h, n, p), n, v), n, e, ArrayStart(|h|), x);
  }

  lemma PatchSecond(bg: seq<byte>, h: seq<byte>, n: nat, p: seq<byte>, v: seq<byte>, e: seq<byte>, x: seq<byte>)
    requires |x| == |v|
    ensures ArrayStart(ArrayStart(|h|) + |p|) + |x| <= |Blocks(bg, h, n, p, v, e)|
    ensures Blit(Blocks(bg, h, n, p, v, e), ArrayStart(ArrayStart(|h|) + |p|), x) == Blocks(bg, h, n, p, x, e)
  {
    hide Block, ArrayStart, Blit;
    var t1 := Block(bg, h, n, p);
    BlitOwnWindow(bg, t1, n, v, x);
    BlitUnderBlock(bg, Block(bg, t1, n, v), n, e, ArrayStart(|t1|), x);
  }

  lemma PatchThird(bg: seq<byte>, h: seq<byte>, n: nat, p: seq<byte>, v: seq<byte>, e: seq<byte>, x: seq<byte>)
    requires |x| == |e|
    ensures ArrayStart(ArrayStart(ArrayStart(|h|) + |p|) + |v|) + |x| == |Blocks(bg, h, n, p, v, e)|
    ensures Blit(Blocks(bg, h, n, p, v, e), ArrayStart(ArrayStart(ArrayStart(|h|) + |p|) + |v|), x)
         == Blocks(bg, h, n, p, v, x)
  {
    hide Block, ArrayStart, Blit;
    BlitOwnWindow(bg, Block(bg, Block(bg, h, n, p), n, v), n, e, x);
  }

  lemma PatchArrayWindows(bg: seq<byte>, frame: CString, names: seq<CString>, raw: StateRaw, x: seq<byte>)
    requires StateRawFits(raw, |names|) && |x| == 8 * |names|
    ensures var t, ctx := StateTemplate(bg, frame, names, raw), StateLayout(frame, names);
      && 4 + |t| == ctx.payloadSize
      && Blit(t, ctx.offsetPosition - 4, x) == StateTemplate(bg, frame, names, raw.(position := x))
      && Blit(t, ctx.offsetVelocity - 4, x) == StateTemplate(bg, frame, names, raw.(velocity := x))
      && Blit(t, ctx.offsetEffort - 4, x) == StateTemplate(bg, frame, names, raw.(effort := x))
  {
    hide Block, Head, ArrayStart, HeadLength, Blit;
    var h := Head(bg, raw.stamp, frame, names);
    PatchFirst(bg, h, |names|, raw.position, raw.velocity, raw.effort, x);
    PatchSecond(bg, h, |names|, raw.position, raw.velocity, raw.effort, x);
    PatchThird(bg, h, |names|, raw.position, raw.velocity, raw.effort, x);
  }

  /** A buffer that holds a template, with anything behind it. */
  function Framed(bg: seq<byte>, frame: CString, names: seq<CString>, raw: StateRaw, tail: seq<byte>): seq<byte>
    requires StateRawFits(raw, |names|)
  {
    HEADER + StateTemplate(bg, frame, names, raw) + tail
  }

  lemma PatchFramedArray(
      bg: seq<byte>, frame: CString, names: seq<CString>, raw: StateRaw, tail: seq<byte>,
      ctx: StateCtx, ds: Option<seq<Double>>)
    requires StateRawFits(raw, |names|) && ArrayFits(ds, |names|) && ctx == StateLayout(frame, names)
    ensures var b := Framed(bg, frame, names, raw, tail);
      var p, v, e := CopyOf(ctx.offsetPosition, ds), CopyOf(ctx.offsetVelocity, ds), CopyOf(ctx.offsetEffort, ds);
      && CopiesFit(p, |b|) && CopiesFit(v, |b|) && CopiesFit(e, |b|)
      && ApplyCopies(b, p) == Framed(bg, frame, names, raw.(position := OrElse(ds, raw.position)), tail)
      && ApplyCopies(b, v) == Framed(bg, frame, names, raw.(velocity := OrElse(ds, raw.velocity)), tail)
      && ApplyCopies(b, e) == Framed(bg, frame, names, raw.(effort := OrElse(ds, raw.effort)), tail)
  {
    hide StateTemplate, StateLayout, Flat, Blit;
    if ds.Some? {
      var x := Flat(ds.value);
      var t := StateTemplate(bg, frame, names, raw);
      var b := Framed(bg, frame, names, raw, tail);
      LayoutOffsets(frame, names);
      PatchArrayWindows(bg, frame, names, raw, x);
      ApplyOneMore(b, [], Copy(ctx.offsetPosition, x));
      ApplyOneMore(b, [], Copy(ctx.offsetVelocity, x));
      ApplyOneMore(b, [], Copy(ctx.offsetEffort, x));
      BlitFramed(HEADER, t, tail, ctx.offsetPosition - 4, x);
      BlitFramed(HEADER, t, tail, ctx.offsetVelocity - 4, x);
      BlitFramed(HEADER, t, tail, ctx.offsetEffort - 4, x);
      assert [] + CopyOf(ctx.offsetPosition, ds) == [Copy(ctx.offsetPosition, x)];
    }
  }

  lemma LayoutOffsets(frame: CString, names: seq<CString>)
    ensures var c := StateLayout(frame, names);
      && c.offsetTimestamp == 4 && c.numJoints == |names|
      && 12 <= c.offsetPosition && c.offsetPosition + 8 * c.numJoints <= c.offsetVelocity
      && c.offsetVelocity + 8 * c.numJoints <= c.offsetEffort
      && c.offsetEffort + 8 * c.numJoints == c.payloadSize
      && StateCtxFits(c, c.payloadSize)
  {
    hide ArrayStart;
  }

  lemma PatchFramedStamp(
      bg: seq<byte>, frame: CString, names: seq<CString>, raw: StateRaw, tail: seq<byte>, stamp: Stamp)
    requires StateRawFits(raw, |names|)
    ensures var b := Framed(bg, frame, names, raw, tail);
      var cs := [Copy(4, Le32(Unsigned(stamp.sec))), Copy(8, Le32(stamp.nanosec))];
      && CopiesFit(cs, |b|)
      && ApplyCopies(b, cs) == Framed(bg, frame, names, raw.(stamp := StampBytes(stamp)), tail)
  {
    hide StateTemplate, Blit, Le32;
    var sec, nanosec := Le32(Unsigned(stamp.sec)), Le32(stamp.nanosec);
    var b := Framed(bg, frame, names, raw, tail);
    PatchStampWindow(bg, frame, names, raw, StampBytes(stamp));
    ApplyOneMore(b, [], Copy(4, sec));
    ApplyOneMore(b, [Copy(4, sec)], Copy(8, nanosec));
    assert [] + [Copy(4, sec)] == [Copy(4, sec)];
    assert [Copy(4, sec)] + [Copy(8, nanosec)] == [Copy(4, sec), Copy(8, nanosec)];
    BlitPair(b, 4, sec, nanosec);
    BlitFramed(HEADER, StateTemplate(bg, frame, names, raw), tail, 0, StampBytes(stamp));
  }

  /** zcdr_serialize_joint_state turns a template into the template that shows the new stamp and
      the supplied arrays, and keeps the arrays that were not supplied. */
  lemma PatchingATemplate(
      bg: seq<byte>, frame: CString, names: seq<CString>, raw: StateRaw, tail: seq<byte>, v: StateValue)
    requires StateRawFits(raw, |names|) && ValueFits(v, |names|)
    ensures var ctx, b := StateLayout(frame, names), Framed(bg, frame, names, raw, tail);
      && CopiesFit(StateCopies(ctx, v), |b|)
      && ApplyCopies(b, StateCopies(ctx, v)) == Framed(bg, frame, names, Overlaid(raw, v), tail)
  {
    hide StateTemplate, StateLayout, ApplyCopies, Framed, Flat, Le32;
    var ctx, b := StateLayout(frame, names), Framed(bg, frame, names, raw, tail);
    LayoutOffsets(frame, names);
    FramedLength(bg, frame, names, raw, tail);
    StateCopiesFit(ctx, v, |b|);
    var r0 := raw.(stamp := StampBytes(v.stamp));
    var r1 := r0.(position := OrElse(v.positions, raw.position));
    var r2 := r1.(velocity := OrElse(v.velocities, raw.velocity));
    var c0 := [Copy(4, Le32(Unsigned(v.stamp.sec))), Copy(8, Le32(v.stamp.nanosec))];
    var c1 := c0 + CopyOf(ctx.offsetPosition, v.positions);
    var c2 := c1 + CopyOf(ctx.offsetVelocity, v.velocities);
    var c3 := c2 + CopyOf(ctx.offsetEffort, v.efforts);
    assert c3 == StateCopies(ctx, v);
    ApplyAppended(b, c2, CopyOf(ctx.offsetEffort, v.efforts));
    ApplyAppended(b, c1, CopyOf(ctx.offsetVelocity, v.velocities));
    ApplyAppended(b, c0, CopyOf(ctx.offsetPosition, v.positions));
    PatchFramedStamp(bg, frame, names, raw, tail, v.stamp);
    PatchFramedArray(bg, frame, names, r0, tail, ctx, v.positions);
    PatchFramedArray(bg, frame, names, r1, tail, ctx, v.velocities);
    PatchFramedArray(bg, frame, names, r2, tail, ctx, v.efforts);
  }

  lemma FramedLength(bg: seq<byte>, frame: CString, names: seq<CString>, raw: StateRaw, tail: seq<byte>)
    requires StateRawFits(raw, |names|)
    ensures |Framed(bg, frame, names, raw, tail)| == StateLayout(frame, names).payloadSize + |tail|
  {
    StateTemplateLength(bg, frame, names, raw);
  }

  function Full(m: JointState): StateValue {
    StateValue(m.stamp, Some(m.position), Some(m.velocity), Some(m.effort))
  }

  // ---- how a message begins ------------------------------------------------------------------

  /** Behind the encapsulation header stand the seconds, in two's complement, and the nanoseconds, each with
      its least significant byte first. */
  predicate ShowsStamp(bytes: seq<byte>, stamp: Stamp) {
    && |bytes| >= 12
    && Number4(bytes[4..8]) == (if stamp.sec < 0 then stamp.sec + 0x1_0000_0000 else stamp.sec)
    && Number4(bytes[8..12]) == stamp.nanosec
  }

  /** CDR_LE without options, then the stamp. */
  predicate BeginsWith(bytes: seq<byte>, stamp: Stamp) {
    ShowsStamp(bytes, stamp) && bytes[..4] == [0, 1, 0, 0]
  }

  lemma StampIsShown(b: seq<byte>, stamp: Stamp)
    requires |b| >= 12 && ReadStamp(b, 4) == stamp
    ensures ShowsStamp(b, stamp)
  {
    hide FromLe32, Number4;
    BytesAreReadLittleEndian(b[4..8]);
    BytesAreReadLittleEndian(b[8..12]);
  }

  lemma StampOfHeader(b: seq<byte>)
    requires GetHeader(b).Got?
    ensures 8 <= |b| && GetHeader(b).value.0 == Stamp(Signed(FromLe32(b[0..4])), FromLe32(b[4..8]))
  {
    hide GetStrings, GetString;
    assert Pad(0, 4) == 0 && Pad(4, 4) == 0;
  }

  /** How every encoded state begins on the wire. */
  lemma StateStartsWithItsStamp(m: JointState)
    requires StateFits(m)
    ensures BeginsWith(EncodeJointState(m), m.stamp)
  {
    hide JointStateBody, DecodeJointState, StateFits, BeginsWith;
    var bytes := EncodeJointState(m);
    JointStateRoundTrip([], m, []);
    assert HEADER + JointStateBody([], m) + [] == bytes;
    StampOfState(bytes, m);
    HeaderFirst(JointStateBody([], m));
  }

  lemma HeaderFirst(body: seq<byte>)
    ensures (HEADER + body)[..4] == [0, 1, 0, 0]
  {}

  lemma StampOfState(bytes: seq<byte>, m: JointState)
    requires DecodeJointState(bytes).Got? && DecodeJointState(bytes).value == m
    ensures |bytes| >= 12 && (bytes[..4] == [0, 1, 0, 0] ==> BeginsWith(bytes, m.stamp))
  {
    hide GetHeader, GetF64Seq, FromLe32, ShowsStamp;
    StampOfHeader(bytes[4..]);
    SliceOfRest(bytes, 0, 4);
    SliceOfRest(bytes, 4, 8);
    StampIsShown(bytes, m.stamp);
  }

  lemma SliceOfRest(bytes: seq<byte>, lo: nat, hi: nat)
    requires 4 + hi <= |bytes| && lo <= hi
    ensures bytes[4..][lo..hi] == bytes[4 + lo..4 + hi]
  {}

  // ---- init, then serialize ------------------------------------------------------------------

  /** Initialising a zeroed buffer and serializing into it yields the customary CDR_LE bytes of
      the message, and a sequential decoder gets every field back and stops at payload_size. */
  lemma InitThenSerialize(was: seq<byte>, laid: seq<byte>, m: JointState)
    requires WellShaped(m) && StateFits(m) && |m.names| >= 1
    requires forall i :: 0 <= i < |was| ==> was[i] == 0
    requires StateLayout(m.frame, m.names).payloadSize <= |was|
    requires var ctx := StateLayout(m.frame, m.names);
      LaidOut(laid, was, StateTemplate(was[4..], m.frame, m.names, BlankState(was[4..], ctx)))
    ensures var ctx := StateLayout(m.frame, m.names);
      && CopiesFit(StateCopies(ctx, Full(m)), |laid|)
      && |EncodeJointState(m)| == ctx.payloadSize
      && ApplyCopies(laid, StateCopies(ctx, Full(m))) == EncodeJointState(m) + was[ctx.payloadSize..]
      && DecodeJointState(ApplyCopies(laid, StateCopies(ctx, Full(m)))) == Got(m, ctx.payloadSize)
    ensures BeginsWith(EncodeJointState(m), m.stamp)
  {
    hide BeginsWith, StateFits;
    StateStartsWithItsStamp(m);
    SerializedState(was, laid, m);
  }

  lemma SerializedState(was: seq<byte>, laid: seq<byte>, m: JointState)
    requires WellShaped(m) && StateFits(m) && |m.names| >= 1
    requires forall i :: 0 <= i < |was| ==> was[i] == 0
    requires StateLayout(m.frame, m.names).payloadSize <= |was|
    requires var ctx := StateLayout(m.frame, m.names);
      LaidOut(laid, was, StateTemplate(was[4..], m.frame, m.names, BlankState(was[4..], ctx)))
    ensures var ctx := StateLayout(m.frame, m.names);
      && CopiesFit(StateCopies(ctx, Full(m)), |laid|)
      && |EncodeJointState(m)| == ctx.payloadSize
      && ApplyCopies(laid, StateCopies(ctx, Full(m))) == EncodeJointState(m) + was[ctx.payloadSize..]
      && DecodeJointState(ApplyCopies(laid, StateCopies(ctx, Full(m)))) == Got(m, ctx.payloadSize)
  {
    hide StateTemplate, StateLayout, JointStateBody, ApplyCopies, BlankState, DecodeJointState, StateCopies, Flat;
    var ctx, bg := StateLayout(m.frame, m.names), was[4..];
    var tail := was[ctx.payloadSize..];
    LayoutOffsets(m.frame, m.names);
    var raw := Blanks(bg, ctx, |m.names|);
    StateTemplateLength(bg, m.frame, m.names, raw);
    assert laid == Framed(bg, m.frame, m.names, raw, tail);
    PatchingATemplate(bg, m.frame, m.names, raw, tail, Full(m));
    StateTemplateConforms(bg, m);
    StateBodyOnZero(bg, m);
    StateTemplateLength(bg, m.frame, m.names, RawOf(m));
    assert Overlaid(raw, Full(m)) == RawOf(m);
    JointStateRoundTrip([], m, tail);
  }

  lemma Blanks(bg: seq<byte>, ctx: StateCtx, n: nat) returns (raw: StateRaw)
    requires ctx.numJoints == n
    requires ctx.offsetPosition >= 4 && ctx.offsetVelocity >= 4 && ctx.offsetEffort >= 4
    ensures raw == BlankState(bg, ctx) && StateRawFits(raw, n)
  {
    raw := BlankState(bg, ctx);
  }

  // ---- reading back --------------------------------------------------------------------------

  lemma {:induction false} FlatAt(ds: seq<Double>, i: nat)
    requires i < |ds|
    ensures Flat(ds)[8 * i..8 * i + 8] == ds[i]
  {
    var init := ds[..|ds| - 1];
    if i < |ds| - 1 {
      FlatAt(init, i);
      assert Flat(ds)[8 * i..8 * i + 8] == Flat(init)[8 * i..8 * i + 8];
    }
  }

  lemma SliceOfSlice(b: seq<byte>, at: nat, n: nat, i: nat, k: nat)
    requires at + n <= |b| && i + k <= n
    ensures b[at..at + n][i..i + k] == b[at + i..at + i + k]
  {
    var u, v := b[at..at + n][i..i + k], b[at + i..at + i + k];
    assert forall j :: 0 <= j < k ==> u[j] == b[at..at + n][i + j] == v[j];
  }

  lemma SliceBehindHeader(t: seq<byte>, tail: seq<byte>, from: nat, k: nat)
    requires from + k <= |t|
    ensures (HEADER + t + tail)[4 + from..4 + from + k] == t[from..from + k]
  {
    var b := HEADER + t + tail;
    var u, v := b[4 + from..4 + from + k], t[from..from + k];
    assert forall j :: 0 <= j < k ==> u[j] == v[j];
  }

  lemma ReadFlat(b: seq<byte>, at: nat, ds: seq<Double>)
    requires at + 8 * |ds| <= |b| && b[at..at + 8 * |ds|] == Flat(ds)
    ensures ReadArray(b, at, |ds|) == ds
  {
    hide Flat;
    assert |ReadArray(b, at, |ds|)| == |ds|;
    forall i | 0 <= i < |ds| ensures ReadArray(b, at, |ds|)[i] == ds[i] {
      FlatAt(ds, i);
      SliceOfSlice(b, at, 8 * |ds|, 8 * i, 8);
    }
  }

  lemma ReadStampBack(b: seq<byte>, at: nat, stamp: Stamp)
    requires at + 8 <= |b| && b[at..at + 8] == StampBytes(stamp)
    ensures ReadStamp(b, at) == stamp
  {
    hide Le32, FromLe32;
    assert b[at..at + 4] == b[at..at + 8][..4] == Le32(Unsigned(stamp.sec));
    assert b[at + 4..at + 8] == b[at..at + 8][4..] == Le32(stamp.nanosec);
    Le32RoundTrip(Unsigned(stamp.sec));
    Le32RoundTrip(stamp.nanosec);
  }

  /** The windows of a template hold the raw bytes. */
  lemma TemplateWindows(bg: seq<byte>, frame: CString, names: seq<CString>, raw: StateRaw)
    requires StateRawFits(raw, |names|)
    ensures var t, c, n := StateTemplate(bg, frame, names, raw), StateLayout(frame, names), 8 * |names|;
      && 4 + |t| == c.payloadSize && 8 <= |t|
      && 12 <= c.offsetPosition && c.offsetPosition + n <= c.payloadSize && c.offsetVelocity >= 4
      && c.offsetVelocity + n <= c.payloadSize && c.offsetEffort >= 4 && c.offsetEffort + n <= c.payloadSize
      && t[..8] == raw.stamp
      && t[c.offsetPosition - 4..c.offsetPosition - 4 + n] == raw.position
      && t[c.offsetVelocity - 4..c.offsetVelocity - 4 + n] == raw.velocity
      && t[c.offsetEffort - 4..c.offsetEffort - 4 + n] == raw.effort
  {
    hide StateTemplate, StateLayout;
    LayoutOffsets(frame, names);
    PatchStampWindow(bg, frame, names, raw, raw.stamp);
    PatchArrayWindows(bg, frame, names, raw, raw.position);
    PatchArrayWindows(bg, frame, names, raw, raw.velocity);
    PatchArrayWindows(bg, frame, names, raw, raw.effort);
  }

  /** Any conforming JointState with this frame and these joints is read back field by field,
      whatever its padding and whatever follows it. */
  lemma StateReadsBack(bg: seq<byte>, m: JointState, tail: seq<byte>)
    requires WellShaped(m) && |m.names| >= 1
    ensures var ctx := StateLayout(m.frame, m.names);
      && StateCtxFits(ctx, ctx.payloadSize)
      && DeserializeJointState(ctx, HEADER + JointStateBody(bg, m) + tail)
         == Some((m.stamp, m.position, m.velocity, m.effort))
      && ShowsStamp(HEADER + JointStateBody(bg, m) + tail, m.stamp)
  {
    hide ShowsStamp;
    hide StateTemplate, StateLayout, JointStateBody, Flat, ReadArray, ReadStamp, StampBytes;
    var ctx := StateLayout(m.frame, m.names);
    StateTemplateConforms(bg, m);
    LayoutOffsets(m.frame, m.names);
    TemplateWindows(bg, m.frame, m.names, RawOf(m));
    var t := StateTemplate(bg, m.frame, m.names, RawOf(m));
    var b, n := HEADER + t + tail, 8 * |m.names|;
    SliceBehindHeader(t, tail, 0, 8);
    SliceBehindHeader(t, tail, ctx.offsetPosition - 4, n);
    SliceBehindHeader(t, tail, ctx.offsetVelocity - 4, n);
    SliceBehindHeader(t, tail, ctx.offsetEffort - 4, n);
    ReadStampBack(b, 4, m.stamp);
    StampIsShown(b, m.stamp);
    ReadFlat(b, ctx.offsetPosition, m.position);
    ReadFlat(b, ctx.offsetVelocity, m.velocity);
    ReadFlat(b, ctx.offsetEffort, m.effort);
  }

  // ---- commands from anyone ------------------------------------------------------------------

  lemma {:induction false} DoublesEndAt(b: seq<byte>, pos: nat, n: nat)
    requires n >= 1 && GetF64s(b, pos, n).Got?
    ensures var g := GetF64s(b, pos, n);
      8 * n <= g.next <= |b| && g.next % 8 == 0 && b[g.next - 8 * n..g.next] == Flat(g.value)
  {
    var before := GetF64s(b, pos, n - 1);
    if n > 1 { DoublesEndAt(b, pos, n - 1); }
    DoublesEndStep(b, n, before, GetF64s(b, pos, n));
  }

  lemma DoublesEndStep(b: seq<byte>, n: nat, before: Got<seq<Double>>, g: Got<seq<Double>>)
    requires n >= 1 && before.Got? && g.Got? && |before.value| == n - 1
    requires n > 1 ==> 8 * (n - 1) <= before.next <= |b| && before.next % 8 == 0
                       && b[before.next - 8 * (n - 1)..before.next] == Flat(before.value)
    requires var q := before.next + Pad(before.next, 8);
      q + 8 <= |b| && g == Got(before.value + [b[q..q + 8]], q + 8)
    ensures 8 * n <= g.next <= |b| && g.next % 8 == 0 && b[g.next - 8 * n..g.next] == Flat(g.value)
  {
    var d := b[g.next - 8..g.next];
    assert g.value[..n - 1] == before.value;
    assert Flat(g.value) == Flat(before.value) + d;
    if n == 1 {
      assert before.value == [];
      FlatNil();
      assert [] + d == d;
    } else {
      assert Pad(before.next, 8) == 0;
      assert b[g.next - 8 * n..g.next] == b[g.next - 8 * n..g.next - 8] + d;
    }
  }

  lemma CommandLayoutEnds(frame: CString, names: seq<CString>, interface_: CString)
    ensures var c := CommandLayout(frame, names, interface_);
      && c.numJoints == |names| && c.offsetTimestamp == 4 && 12 <= c.offsetValues
      && c.offsetValues + 8 * c.numJoints == c.payloadSize
  {
    hide ArrayStart, AfterString;
  }

  /** A JointCommand a sequential decoder accepts, with any frame, names and interface string and
      any padding, that fills exactly payload_size bytes, is read with its own stamp; and with
      its own values exactly when it carries one value per configured joint. */
  lemma AnyCommandOfTheRightSize(
      ctx: CommandCtx, frame: CString, names: seq<CString>, interface_: CString, bytes: seq<byte>)
    requires ctx == CommandLayout(frame, names, interface_)
    requires |bytes| == ctx.payloadSize
    requires DecodeJointCommand(bytes).Got? && DecodeJointCommand(bytes).next == |bytes|
    ensures ctx.offsetTimestamp + 8 <= ctx.payloadSize && ctx.offsetValues + 8 * ctx.numJoints <= ctx.payloadSize
    ensures var m, r := DecodeJointCommand(bytes).value, DeserializeJointCommand(ctx, bytes);
      && r.Some? && r.value.0 == m.stamp && ShowsStamp(bytes, r.value.0)
      && (r.value.1 == m.values <==> |m.values| == |names|)
  {
    hide CommandLayout, ReadArray, Flat, GetStrings, GetString, GetF64s, ShowsStamp, FromLe32;
    CommandLayoutEnds(frame, names, interface_);
    var b := bytes[4..];
    var m := DecodeJointCommand(bytes).value;
    StampOfHeader(b);
    SliceOfRest(bytes, 0, 4);
    SliceOfRest(bytes, 4, 8);
    StampIsShown(bytes, m.stamp);
    if |m.values| == |names| {
      var at := GetString(b, GetHeader(b).next).next;
      var (n, p) := (GetU32(b, at).value, GetU32(b, at).next);
      assert GetF64s(b, p, n) == Got(m.values, |b|);
      if n == 0 {
        assert m.values == [];
        assert Flat(m.values) == [] by { FlatNil(); }
      } else {
        DoublesEndAt(b, p, n);
      }
      EndOfBody(bytes, 8 * |names|);
      assert ctx.offsetValues + 8 * |names| == |bytes|;
      ReadFlat(bytes, ctx.offsetValues, m.values);
    } else {
      ReadLength(bytes, ctx.offsetValues, |names|);
    }
  }

  lemma EndOfBody(bytes: seq<byte>, k: nat)
    requires 4 + k <= |bytes|
    ensures bytes[|bytes| - k..|bytes|] == bytes[4..][|bytes| - 4 - k..|bytes| - 4]
  {
    var u, v := bytes[|bytes| - k..|bytes|], bytes[4..][|bytes| - 4 - k..|bytes| - 4];
    assert forall i :: 0 <= i < k ==> u[i] == v[i];
  }

  lemma FlatNil() ensures Flat([]) == [] {}

  lemma ReadLength(b: seq<byte>, at: nat, n: nat)
    requires at + 8 * n <= |b|
    ensures |ReadArray(b, at, n)| == n
  {
  }

  /** What a codec user gets: laying out a zeroed buffer and writing one value into it leaves the
      encoding of that value in the first payload_size bytes. */
  method EncodeOnce(m: JointState, capacity: nat) returns (bytes: seq<byte>)
    requires WellShaped(m) && StateFits(m) && |m.names| >= 1
    requires StateLayout(m.frame, m.names).payloadSize <= capacity < WORD_RANGE
    ensures bytes == EncodeJointState(m)
    ensures BeginsWith(bytes, m.stamp)
  {
    hide StateTemplate, StateLayout, EncodeJointState, StateCopies, BlankState, DecodeJointState, StateFits, BeginsWith;
    hide ApplyCopies, CopiesFit, LaidOut;
    var buf := new byte[capacity](_ => 0);
    ghost var was := buf[..];
    var ctx := InitJointState(Some(m.frame), m.names, buf);
    InitThenSerialize(was, buf[..], m);
    LayoutOffsets(m.frame, m.names);
    SerializeJointState(ctx, Full(m), buf);
    bytes := buf[..ctx.payloadSize];
  }

  /** A command encoded with the frame, names and interface string the receiver was configured with has
      exactly the size it admits, and is read with its own stamp and values. */
  lemma OwnCommandsAreAdmitted(m: JointCommand)
    requires CommandFits(m) && |m.values| == |m.names| >= 1
    ensures var ctx, bytes := CommandLayout(m.frame, m.names, m.interface_), EncodeJointCommand(m);
      && |bytes| == ctx.payloadSize
      && ctx.offsetTimestamp + 8 <= ctx.payloadSize && ctx.offsetValues + 8 * ctx.numJoints <= ctx.payloadSize
      && DeserializeJointCommand(ctx, bytes) == Some((m.stamp, m.values))
  {
    hide JointCommandBody, CommandLayout, DecodeJointCommand, DeserializeJointCommand;
    var bytes := EncodeJointCommand(m);
    assert bytes + [] == bytes;
    JointCommandRoundTrip([], m, []);
    CommandEncodingLength(m);
    AnyCommandOfTheRightSize(CommandLayout(m.frame, m.names, m.interface_), m.frame, m.names, m.interface_, bytes);
  }

  lemma CommandEncodingLength(m: JointCommand)
    requires |m.values| == |m.names| >= 1
    ensures |EncodeJointCommand(m)| == CommandLayout(m.frame, m.names, m.interface_).payloadSize
  {
    hide JointCommandBody, Head, Block, Flat, ArrayStart, HeadLength;
    CommandTemplateConforms([], m);
  }
}
