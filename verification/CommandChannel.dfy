/**
 The incoming half of a client as a machine: the transport callback admits payloads of the exact
 size, commits them to the command buffer and only then increments the accepted counter; the
 control loop, which begins some time later with the count it finds then, compares the counter with
 the one it saw last and reads a command when it moved.
 */
module CommandChannel {
  import opened Bytes
  import opened Cdr
  import opened Serialization
  import opened CdrConformance
  import opened DoubleBuffer

  const LOOP: nat := 0  // the reader that is the control loop

  /** `count` is the number of increments; the code sees it modulo 2^32. `base` is the count at which
      the loop began, `seen` the one it stored last, `held` the number (from 1) and bytes of the
      command it read. */
  datatype Channel = Channel(
    db: State, uncounted: bool, count: nat, payloads: seq<seq<byte>>,
    started: bool, base: nat, loopReading: bool, seen: nat, held: Option<(nat, seq<byte>)>)

  datatype Event =
    | Deliver(payload: seq<byte>)   // the callback is entered
    | Writer                        // the next byte store, or the commit, of the callback
    | Count                         // atomic_inc
    | Begin                         // the loop stores its first last_command_count
    | Poll                          // the loop loads and compares the counter
    | Reader(step: Step)  // lock, copy or unlock by the loop or by anyone else

  /** The buffers and the counter are reset and the callback is registered; the loop has not begun. */
  function Initial(capacity: nat): Channel {
    Channel(Start(Zeros(capacity), Zeros(capacity)), false, 0, [], false, 0, false, 0, None)
  }

  function WriterStep(s: Channel): Step {
    if s.db.writer.Filling? && s.db.writer.done < |s.db.writer.stores| then StoreByte else Commit
  }

  predicate CanDo(s: Channel, e: Event, size: nat)
    requires Shaped(s.db)
  {
    match e
    case Deliver(payload) =>
      !s.uncounted && s.db.writer.Idle? && s.db.lock.Free? && size <= Cap(s.db)
    case Writer => Enabled(s.db, WriterStep(s))
    case Count => s.uncounted
    case Begin => !s.started
    case Poll => s.started && !s.loopReading
    case Reader(step) =>
      && Enabled(s.db, step)
      && match step
         case Acquire(reader, n) => reader == LOOP ==> s.loopReading && n == size
         case CopyByte => true
         case Release => true
         case _ => false
  }

  /** cmd_payload_size_ is `size`. */
  function Next(s: Channel, e: Event, size: nat): (t: Channel)
    requires Shaped(s.db) && CanDo(s, e, size)
    ensures Shaped(t.db)
  {
    match e
    case Deliver(payload) =>
      if |payload| != size then s
      else s.(db := Do(s.db, Prepare(StoresOf(0, payload))), payloads := s.payloads + [payload])
    case Writer =>
      s.(db := Do(s.db, WriterStep(s)), uncounted := s.uncounted || WriterStep(s).Commit?)
    case Count => s.(count := s.count + 1, uncounted := false)
    case Begin => s.(started := true, base := s.count, seen := s.count)
    case Poll =>
      if s.count % WORD_RANGE != s.seen % WORD_RANGE then s.(seen := s.count, loopReading := true) else s
    case Reader(step) =>
      var t := s.(db := Do(s.db, step));
      if step.Release? && s.db.lock.reader == LOOP
      then t.(loopReading := false, held := Some((|s.db.writes|, s.db.lock.out)))
      else t
  }

  predicate LegalRun(s: Channel, run: seq<Event>, size: nat)
    requires Shaped(s.db)
    decreases run
  {
    run == [] || (CanDo(s, run[0], size) && LegalRun(Next(s, run[0], size), run[1..], size))
  }

  function AfterRun(s: Channel, run: seq<Event>, size: nat): (t: Channel)
    requires Shaped(s.db) && LegalRun(s, run, size)
    ensures Shaped(t.db)
    decreases run
  {
    if run == [] then s else AfterRun(Next(s, run[0], size), run[1..], size)
  }

  // ---- the invariant -------------------------------------------------------------------------

  ghost predicate SenderInv(s: Channel, size: nat, capacity: nat)
    requires Shaped(s.db)
  {
    var n, z := |s.db.writes|, Zeros(capacity);
    && size <= capacity && Inv(z, z, s.db)
    && |s.payloads| == n + (if s.db.writer.Filling? then 1 else 0)
    && (forall i :: 0 <= i < |s.payloads| ==> |s.payloads[i]| == size)
    && (forall i :: 0 <= i < n ==> s.db.writes[i] == StoresOf(0, s.payloads[i]))
    && (s.db.writer.Filling? ==> s.db.writer.stores == StoresOf(0, s.payloads[n]))
    && n == s.count + (if s.uncounted then 1 else 0)
    && (s.uncounted ==> s.db.writer.Idle?)
  }

  ghost predicate LoopInv(s: Channel, size: nat)
    requires Shaped(s.db) && |s.payloads| >= |s.db.writes|
  {
    && s.base <= s.seen <= s.count <= |s.db.writes|
    && (!s.started ==> !s.loopReading && s.held.None? && s.seen == 0)
    && (s.loopReading ==> s.seen > s.base)
    && (s.db.lock.Held? && s.db.lock.reader == LOOP ==> s.loopReading && s.db.lock.size == size)
    && (!s.loopReading && s.seen > s.base ==> s.held.Some? && s.held.value.0 >= s.seen)
    && (s.held.Some? ==>
          && s.base < s.held.value.0 <= |s.db.writes|
          && s.held.value.1 == s.payloads[s.held.value.0 - 1])
  }

  ghost predicate ChannelInv(s: Channel, size: nat, capacity: nat) {
    Shaped(s.db) && SenderInv(s, size, capacity) && LoopInv(s, size)
  }

  lemma BufferStep(s: State, e: Step, capacity: nat)
    requires Inv(Zeros(capacity), Zeros(capacity), s) && Enabled(s, e)
    ensures Inv(Zeros(capacity), Zeros(capacity), Do(s, e))
  {
    DoubleBuffer.WriterStep(Zeros(capacity), Zeros(capacity), s, e);
    ReadersStep(Zeros(capacity), Zeros(capacity), s, e);
  }

  lemma SenderStep(s: Channel, e: Event, size: nat, capacity: nat)
    requires Shaped(s.db) && SenderInv(s, size, capacity) && CanDo(s, e, size)
    ensures SenderInv(Next(s, e, size), size, capacity)
  {
    hide ReadersInv, WriterInv;
    match e {
      case Deliver(payload) =>
        if |payload| == size {
          BufferStep(s.db, Prepare(StoresOf(0, payload)), capacity);
        }
      case Writer => BufferStep(s.db, WriterStep(s), capacity);
      case Count =>
      case Begin =>
      case Poll =>
      case Reader(step) => BufferStep(s.db, step, capacity);
    }
  }

  /** What a completed read of the loop hands over is the last committed command, whole. */
  lemma LoopReadsACommand(s: Channel, size: nat, capacity: nat)
    requires ChannelInv(s, size, capacity) && Enabled(s.db, Release) && s.db.lock.reader == LOOP
    ensures |s.db.writes| >= 1 && s.db.lock.out == s.payloads[|s.db.writes| - 1]
  {
    var z, n := Zeros(capacity), |s.db.writes|;
    WholeWriteShowsItsData(z, z, s.db.writes, n - 1, s.payloads[n - 1]);
  }

  lemma LoopStep(s: Channel, e: Event, size: nat, capacity: nat)
    requires ChannelInv(s, size, capacity) && CanDo(s, e, size)
    requires SenderInv(Next(s, e, size), size, capacity)
    ensures LoopInv(Next(s, e, size), size)
  {
    hide Inv;
    match e {
      case Deliver(payload) =>
      case Writer =>
      case Count =>
      case Begin =>
      case Poll =>
      case Reader(step) =>
        if step.Release? && s.db.lock.reader == LOOP {
          LoopReadsACommand(s, size, capacity);
        }
    }
  }

  lemma {:induction false} InvOverChannelRun(s: Channel, run: seq<Event>, size: nat, capacity: nat)
    requires ChannelInv(s, size, capacity) && LegalRun(s, run, size)
    ensures ChannelInv(AfterRun(s, run, size), size, capacity)
    decreases run
  {
    if run != [] {
      SenderStep(s, run[0], size, capacity);
      LoopStep(s, run[0], size, capacity);
      InvOverChannelRun(Next(s, run[0], size), run[1..], size, capacity);
    }
  }

  ghost predicate Reachable(s: Channel, size: nat, capacity: nat) {
    exists run :: LegalRun(Initial(capacity), run, size) && s == AfterRun(Initial(capacity), run, size)
  }

  lemma ReachableInv(s: Channel, size: nat, capacity: nat)
    requires size <= capacity && Reachable(s, size, capacity)
    ensures ChannelInv(s, size, capacity)
  {
    var run :| LegalRun(Initial(capacity), run, size) && s == AfterRun(Initial(capacity), run, size);
    InvOverChannelRun(Initial(capacity), run, size, capacity);
  }

  /** How many commands were committed since the loop last completed a read; n at the start. */
  function SinceRead(s: Channel, run: seq<Event>, size: nat, n: nat): nat
    requires Shaped(s.db) && LegalRun(s, run, size)
    decreases run
  {
    if run == [] then n
    else
      var e := run[0];
      var n' := if e.Writer? && WriterStep(s).Commit? then n + 1
                else if e.Reader? && e.step.Release? && s.db.lock.reader == LOOP then 0
                else n;
      SinceRead(Next(s, e, size), run[1..], size, n')
  }

  /** The number of the command the loop holds, 0 for none. */
  function HeldNumber(s: Channel): nat {
    if s.held.Some? then s.held.value.0 else 0
  }

  lemma {:induction false} CommitsAddUp(s: Channel, run: seq<Event>, size: nat, n: nat)
    requires Shaped(s.db) && LegalRun(s, run, size) && |s.db.writes| == HeldNumber(s) + n
    ensures var t := AfterRun(s, run, size);
      |t.db.writes| == HeldNumber(t) + SinceRead(s, run, size, n)
    decreases run
  {
    if run != [] {
      var e := run[0];
      var n' := if e.Writer? && WriterStep(s).Commit? then n + 1
                else if e.Reader? && e.step.Release? && s.db.lock.reader == LOOP then 0
                else n;
      CommitsAddUp(Next(s, e, size), run[1..], size, n');
    }
  }

  // ---- the results ---------------------------------------------------------------------------

  /** Commit, then count: every counted command was committed, at most one committed command is
      not yet counted, and a counter value the loop acts on never runs ahead of what it will read. */
  lemma CountedMeansCommitted(s: Channel, size: nat, capacity: nat)
    requires size <= capacity && Reachable(s, size, capacity)
    ensures s.seen <= s.count <= |s.db.writes| <= s.count + 1
    ensures forall i :: 0 <= i < |s.payloads| ==> |s.payloads[i]| == size
  {
    ReachableInv(s, size, capacity);
  }

  /** When the loop completes the read it began on seeing count c, it holds a committed command
      with number at least c, bytes intact. */
  lemma ReadIsAtLeastAsNewAsTheCount(s: Channel, size: nat, capacity: nat)
    requires size <= capacity && Reachable(s, size, capacity)
    requires CanDo(s, Reader(Release), size) && s.db.lock.reader == LOOP
    ensures var t := Next(s, Reader(Release), size);
      && t.held.Some? && 1 <= t.held.value.0 <= |t.payloads|
      && t.seen == s.seen <= t.held.value.0 == |t.db.writes|
      && t.held.value.1 == t.payloads[t.held.value.0 - 1]
  {
    ReachableInv(s, size, capacity);
    SenderStep(s, Reader(Release), size, capacity);
    LoopStep(s, Reader(Release), size, capacity);
  }

  /** The callback is not running. */
  predicate SenderQuiet(s: Channel) { s.db.writer.Idle? && !s.uncounted }

  /** Once the sender is quiet the loop holds the last command exactly when nothing was committed
      since the loop last completed a read. */
  lemma QuietLoopHoldsTheLastCommand(run: seq<Event>, size: nat, capacity: nat)
    requires size <= capacity && LegalRun(Initial(capacity), run, size)
    requires SenderQuiet(AfterRun(Initial(capacity), run, size))
    ensures var s := AfterRun(Initial(capacity), run, size);
      |s.payloads| >= 1 ==>
        (SinceRead(Initial(capacity), run, size, 0) == 0
         <==> s.held == Some((|s.payloads|, s.payloads[|s.payloads| - 1])))
  {
    InvOverChannelRun(Initial(capacity), run, size, capacity);
    CommitsAddUp(Initial(capacity), run, size, 0);
  }

  /** When a poll finds nothing new and fewer than 2^32 commands came in since the count the loop last
      saw, it holds the last command exactly when some command was counted after it began; commands
      that came before do not move the counter it compares with, and it holds none of them. */
  lemma NothingNewMissesOnlyEarlyCommands(s: Channel, size: nat, capacity: nat)
    requires size <= capacity && Reachable(s, size, capacity)
    requires SenderQuiet(s) && CanDo(s, Poll, size) && Next(s, Poll, size) == s && |s.payloads| >= 1
    requires s.count - s.seen < WORD_RANGE
    ensures s.held == Some((|s.payloads|, s.payloads[|s.payloads| - 1])) <==> s.count > s.base
    ensures s.count == s.base ==> s.held == None
  {
    ReachableInv(s, size, capacity);
    assert s.count % WORD_RANGE == s.seen % WORD_RANGE;
    SameWord(s.count, s.seen);
  }

  lemma SameWord(a: nat, b: nat)
    requires a >= b && a % WORD_RANGE == b % WORD_RANGE
    ensures a - b < WORD_RANGE <==> a == b
  {
  }

  /** And if the poll does find something new, completing the read gets the last command. */
  lemma QuietReadGetsTheLastCommand(s: Channel, size: nat, capacity: nat)
    requires size <= capacity && Reachable(s, size, capacity)
    requires SenderQuiet(s) && CanDo(s, Reader(Release), size) && s.db.lock.reader == LOOP
    ensures |s.payloads| >= 1
    ensures Next(s, Reader(Release), size).held == Some((|s.payloads|, s.payloads[|s.payloads| - 1]))
  {
    ReachableInv(s, size, capacity);
    LoopReadsACommand(s, size, capacity);
  }

  /** With JointCommands on the wire: whatever the loop holds decodes to the stamp and the values
      its sender encoded, for any frame, names and interface string of the sender's. */
  lemma LoopHoldsASentCommand(
      s: Channel, ctx: CommandCtx, frame: CString, names: seq<CString>, interface_: CString, capacity: nat)
    requires ctx == CommandLayout(frame, names, interface_) && ctx.payloadSize <= capacity
    requires Reachable(s, ctx.payloadSize, capacity) && s.held.Some?
    requires forall i :: 0 <= i < |s.payloads| ==>
               DecodeJointCommand(s.payloads[i]).Got? && DecodeJointCommand(s.payloads[i]).next == |s.payloads[i]|
               && |DecodeJointCommand(s.payloads[i]).value.values| == |names|
    ensures ctx.offsetTimestamp + 8 <= ctx.payloadSize && ctx.offsetValues + 8 * ctx.numJoints <= ctx.payloadSize
    ensures 1 <= s.held.value.0 <= |s.payloads|
    ensures var m := DecodeJointCommand(s.payloads[s.held.value.0 - 1]).value;
      DeserializeJointCommand(ctx, s.held.value.1) == Some((m.stamp, m.values))
  {
    hide DecodeJointCommand, DeserializeJointCommand, CommandLayout;
    ReachableInv(s, ctx.payloadSize, capacity);
    AnyCommandOfTheRightSize(ctx, frame, names, interface_, s.held.value.1);
  }

  // ---- runs that exist -------------------------------------------------------------------------

  lemma {:induction false} RunsCompose(s: Channel, a: seq<Event>, b: seq<Event>, size: nat)
    requires Shaped(s.db) && LegalRun(s, a, size) && LegalRun(AfterRun(s, a, size), b, size)
    ensures LegalRun(s, a + b, size)
    ensures AfterRun(s, a + b, size) == AfterRun(AfterRun(s, a, size), b, size)
    decreases a
  {
    if a == [] {
      assert a + b == b;
    } else {
      assert (a + b)[1..] == a[1..] + b;
      RunsCompose(Next(s, a[0], size), a[1..], b, size);
    }
  }

  lemma OneEvent(s: Channel, e: Event, size: nat)
    requires Shaped(s.db) && CanDo(s, e, size)
    ensures LegalRun(s, [e], size) && AfterRun(s, [e], size) == Next(s, e, size)
  {
    var t := Next(s, e, size);
    assert [e][1..] == [];
    assert LegalRun(t, [], size) && AfterRun(t, [], size) == t;
  }

  /** Neither the callback nor any reader is at work. */
  predicate Resting(s: Channel, size: nat) {
    Shaped(s.db) && SenderQuiet(s) && s.db.lock.Free? && size <= Cap(s.db)
  }

  /** t differs from s by n counted commands, the last of them p. */
  ghost predicate Received(s: Channel, t: Channel, n: nat, p: seq<byte>) {
    && t.count == s.count + n && |t.payloads| == |s.payloads| + n && s.payloads <= t.payloads
    && (n > 0 ==> t.payloads[|t.payloads| - 1] == p)
    && t.started == s.started && t.base == s.base
    && t.loopReading == s.loopReading && t.seen == s.seen && t.held == s.held
  }

  /** The callback's remaining stores and its commit. */
  lemma {:induction false} FillingCanComplete(s: Channel, size: nat) returns (run: seq<Event>)
    requires Shaped(s.db) && s.db.lock.Free? && s.db.writer.Filling? && s.db.writer.idx < 2
    requires s.db.writer.done <= |s.db.writer.stores| && StoresFit(s.db.writer.stores, Cap(s.db))
    ensures LegalRun(s, run, size)
    ensures var t := AfterRun(s, run, size);
      t == s.(db := t.db, uncounted := true) && t.db.writer.Idle? && t.db.lock.Free? && Cap(t.db) == Cap(s.db)
    decreases |s.db.writer.stores| - s.db.writer.done
  {
    var t := Next(s, Writer, size);
    OneEvent(s, Writer, size);
    if s.db.writer.done == |s.db.writer.stores| {
      run := [Writer];
    } else {
      var rest := FillingCanComplete(t, size);
      RunsCompose(s, [Writer], rest, size);
      run := [Writer] + rest;
    }
  }

  /** One command, from the callback's entry to its count. */
  lemma DeliveryCanComplete(s: Channel, p: seq<byte>, size: nat) returns (run: seq<Event>)
    requires Resting(s, size) && |p| == size
    ensures LegalRun(s, run, size)
    ensures var t := AfterRun(s, run, size);
      Resting(t, size) && Received(s, t, 1, p)
  {
    hide LegalRun, AfterRun;
    OneEvent(s, Deliver(p), size);
    var s1 := Next(s, Deliver(p), size);
    var fill := FillingCanComplete(s1, size);
    var s2 := AfterRun(s1, fill, size);
    OneEvent(s2, Count, size);
    RunsCompose(s1, fill, [Count], size);
    RunsCompose(s, [Deliver(p)], fill + [Count], size);
    run := [Deliver(p)] + (fill + [Count]);
  }

  lemma {:induction false} ManyDeliveries(s: Channel, p: seq<byte>, n: nat, size: nat) returns (run: seq<Event>)
    requires Resting(s, size) && |p| == size
    ensures LegalRun(s, run, size)
    ensures var t := AfterRun(s, run, size);
      Resting(t, size) && Received(s, t, n, p)
    decreases n
  {
    hide LegalRun, AfterRun;
    if n == 0 {
      NoEvent(s, size);
      run := [];
    } else {
      var first := DeliveryCanComplete(s, p, size);
      var s1 := AfterRun(s, first, size);
      var rest := ManyDeliveries(s1, p, n - 1, size);
      RunsCompose(s, first, rest, size);
      run := first + rest;
    }
  }

  /** Only the control loop moves. */
  predicate LoopOnly(run: seq<Event>) {
    forall i :: 0 <= i < |run| ==>
      run[i].Begin? || run[i].Poll? || (run[i].Reader? && (run[i].step.Acquire? ==> run[i].step.reader == LOOP))
  }

  lemma {:induction false} CopiesCanComplete(s: Channel, size: nat) returns (run: seq<Event>)
    requires Shaped(s.db) && s.db.lock.Held? && |s.db.lock.out| <= s.db.lock.size <= Cap(s.db)
    ensures LegalRun(s, run, size) && LoopOnly(run)
    ensures var t := AfterRun(s, run, size);
      && t == s.(db := t.db) && t.db == s.db.(lock := t.db.lock)
      && t.db.lock.Held? && t.db.lock == s.db.lock.(out := t.db.lock.out) && |t.db.lock.out| == t.db.lock.size
    decreases s.db.lock.size - |s.db.lock.out|
  {
    if |s.db.lock.out| == s.db.lock.size {
      run := [];
    } else {
      OneEvent(s, Reader(CopyByte), size);
      var rest := CopiesCanComplete(Next(s, Reader(CopyByte), size), size);
      RunsCompose(s, [Reader(CopyByte)], rest, size);
      run := [Reader(CopyByte)] + rest;
    }
  }

  /** t differs from s by one completed read of the loop. */
  ghost predicate HasRead(s: Channel, t: Channel) {
    && Shaped(t.db) && t.db == s.db.(seen := t.db.seen)
    && t == s.(db := t.db, loopReading := false, held := t.held)
    && t.held.Some? && t.held.value.0 == |s.db.writes|
  }

  /** A loop that has decided to read can do so whenever the lock is free. */
  lemma LoopReadCanComplete(s: Channel, size: nat) returns (run: seq<Event>)
    requires Shaped(s.db) && s.db.lock.Free? && size <= Cap(s.db) && s.loopReading
    ensures LegalRun(s, run, size) && LoopOnly(run) && HasRead(s, AfterRun(s, run, size))
  {
    hide LegalRun, AfterRun;
    var e := Reader(Acquire(LOOP, size));
    OneEvent(s, e, size);
    var s1 := Next(s, e, size);
    var copies := CopiesCanComplete(s1, size);
    var s2 := AfterRun(s1, copies, size);
    OneEvent(s2, Reader(Release), size);
    RunsCompose(s1, copies, [Reader(Release)], size);
    RunsCompose(s, [e], copies + [Reader(Release)], size);
    run := [e] + (copies + [Reader(Release)]);
  }

  lemma ReachesOn(s: Channel, run: seq<Event>, size: nat, capacity: nat)
    requires Reachable(s, size, capacity) && Shaped(s.db) && LegalRun(s, run, size)
    ensures Reachable(AfterRun(s, run, size), size, capacity)
  {
    var before :| LegalRun(Initial(capacity), before, size) && s == AfterRun(Initial(capacity), before, size);
    RunsCompose(Initial(capacity), before, run, size);
  }

  /** The loop's own steps can make it hold the last command. */
  ghost predicate CanCatchUp(s: Channel, size: nat)
    requires Shaped(s.db) && |s.payloads| >= 1
  {
    exists run :: LegalRun(s, run, size) && LoopOnly(run)
      && AfterRun(s, run, size).held == Some((|s.payloads|, s.payloads[|s.payloads| - 1]))
  }

  /** The loop does not mean to read and a poll, if it has begun, finds nothing new. */
  predicate Stuck(s: Channel) {
    s.db.lock.Free? && !s.loopReading && (s.started ==> s.count % WORD_RANGE == s.seen % WORD_RANGE)
  }

  lemma {:induction false} StuckStaysStuck(s: Channel, run: seq<Event>, size: nat)
    requires Shaped(s.db) && Stuck(s) && LegalRun(s, run, size) && LoopOnly(run)
    ensures Stuck(AfterRun(s, run, size)) && AfterRun(s, run, size).held == s.held
    decreases run
  {
    if run != [] {
      StuckStaysStuck(Next(s, run[0], size), run[1..], size);
    }
  }

  /** From a state in which a poll finds something, or a read is due, the loop alone gets there. */
  lemma CatchingUp(s: Channel, size: nat, capacity: nat)
    requires size <= capacity && Reachable(s, size, capacity) && Resting(s, size) && !Stuck(s)
    ensures |s.payloads| >= 1 && CanCatchUp(s, size)
  {
    hide LegalRun, AfterRun, Reachable, LoopOnly;
    ReachableInv(s, size, capacity);
    var run, s1 := [], s;
    if s.loopReading {
      NoEvent(s, size);
    } else {
      OneEvent(s, Poll, size);
      run, s1 := [Poll], Next(s, Poll, size);
    }
    ReachesOn(s, run, size, capacity);
    var reading := LoopReadCanComplete(s1, size);
    ReachesOn(s1, reading, size, capacity);
    ReachableInv(AfterRun(s1, reading, size), size, capacity);
    RunsCompose(s, run, reading, size);
    LoopOnlyAfter(run, reading);
    assert AfterRun(s, run + reading, size).held == Some((|s.payloads|, s.payloads[|s.payloads| - 1]));
  }

  lemma LoopOnlyAfter(run: seq<Event>, rest: seq<Event>)
    requires (run == [] || run == [Poll]) && LoopOnly(rest)
    ensures LoopOnly(run + rest)
  {}

  /** Progress, exactly: with a quiet sender and a free lock the loop alone can get to hold the last
      command when it already does, when it means to read, or when a poll would find the counter moved;
      in any other state nothing it does changes what it holds. */
  lemma QuietLoopCanCatchUp(s: Channel, size: nat, capacity: nat)
    requires size <= capacity && Reachable(s, size, capacity) && Resting(s, size) && |s.payloads| >= 1
    ensures CanCatchUp(s, size) <==>
            s.loopReading || (s.started && s.count % WORD_RANGE != s.seen % WORD_RANGE)
            || HeldNumber(s) == |s.payloads|
  {
    hide LegalRun, AfterRun, Reachable;
    ReachableInv(s, size, capacity);
    if !Stuck(s) {
      CatchingUp(s, size, capacity);
    } else if HeldNumber(s) == |s.payloads| {
      NoEvent(s, size);
    } else if CanCatchUp(s, size) {
      var run :| LegalRun(s, run, size) && LoopOnly(run)
        && AfterRun(s, run, size).held == Some((|s.payloads|, s.payloads[|s.payloads| - 1]));
      StuckStaysStuck(s, run, size);
      assert false;
    }
  }

  /** So while fewer than 2^32 commands came in since the count it last saw, a loop can get to the last
      command if and only if it has begun and some command was counted after that. */
  lemma OnlyEarlyCommandsAreOutOfReach(s: Channel, size: nat, capacity: nat)
    requires size <= capacity && Reachable(s, size, capacity) && Resting(s, size) && |s.payloads| >= 1
    requires s.count - s.seen < WORD_RANGE
    ensures CanCatchUp(s, size) <==> s.started && s.count > s.base
  {
    hide CanCatchUp, Reachable;
    ReachableInv(s, size, capacity);
    QuietLoopCanCatchUp(s, size, capacity);
    if s.started { SameWordOrLess(s.count, s.seen); }
  }

  lemma SameWordOrLess(a: nat, b: nat)
    requires a >= b && a - b < WORD_RANGE
    ensures a % WORD_RANGE == b % WORD_RANGE <==> a == b
  {
    if a % WORD_RANGE == b % WORD_RANGE { SameWord(a, b); }
  }

  /** The run that loses a command: accepted and counted after init but before the loop begins, it is
      the only command there is, no poll finds it and nothing the loop does ever reads it. */
  lemma AnEarlyCommandIsNeverRead(p: seq<byte>, size: nat, capacity: nat) returns (s: Channel)
    requires |p| == size <= capacity
    ensures Reachable(s, size, capacity) && Resting(s, size) && s.started
    ensures s.payloads == [p] && s.count == s.seen == 1
    ensures CanDo(s, Poll, size) && Next(s, Poll, size) == s
    ensures forall run :: LegalRun(s, run, size) && LoopOnly(run) ==> AfterRun(s, run, size).held == None
  {
    hide LegalRun, AfterRun, Reachable, LoopOnly;
    var z := Initial(capacity);
    var send := DeliveryCanComplete(z, p, size);
    var s1 := AfterRun(z, send, size);
    FromTheStart(send, size, capacity);
    OneEvent(s1, Begin, size);
    ReachesOn(s1, [Begin], size, capacity);
    s := Next(s1, Begin, size);
    forall run | LegalRun(s, run, size) && LoopOnly(run) ensures AfterRun(s, run, size).held == None {
      StuckStaysStuck(s, run, size);
    }
  }

  lemma NoEvent(s: Channel, size: nat)
    requires Shaped(s.db)
    ensures LegalRun(s, [], size) && AfterRun(s, [], size) == s
  {}

  // ---- the counter can come round ----------------------------------------------------------------

  /** A quiet state in which a poll finds nothing new although 2^32 commands came in since the count
      the loop last saw. */
  ghost predicate CameRound(s: Channel, size: nat, capacity: nat) {
    && Reachable(s, size, capacity) && Resting(s, size)
    && CanDo(s, Poll, size) && Next(s, Poll, size) == s && s.count - s.seen == WORD_RANGE
    && |s.payloads| == WORD_RANGE + 1
  }

  /** One command that the loop polls, and may have read, before 2^32 others come in. */
  lemma OneSeenCommand(first: seq<byte>, size: nat, capacity: nat) returns (run: seq<Event>)
    requires |first| == size <= capacity
    ensures LegalRun(Initial(capacity), run, size)
    ensures var s := AfterRun(Initial(capacity), run, size);
      && Resting(s, size) && s.started && s.loopReading && s.count == s.seen == 1
      && |s.payloads| == 1 && s.payloads[0] == first
  {
    hide LegalRun, AfterRun;
    var z := Initial(capacity);
    OneEvent(z, Begin, size);
    var z1 := Next(z, Begin, size);
    var send := DeliveryCanComplete(z1, first, size);
    var s1 := AfterRun(z1, send, size);
    OneEvent(s1, Poll, size);
    RunsCompose(z1, send, [Poll], size);
    RunsCompose(z, [Begin], send + [Poll], size);
    run := [Begin] + (send + [Poll]);
  }

  /** The bound is tight: after 2^32 unread commands the poll finds nothing new and the loop still
      holds the first command. */
  lemma AnUpdateCanBeLost(first: seq<byte>, last: seq<byte>, size: nat, capacity: nat) returns (s: Channel)
    requires |first| == |last| == size <= capacity
    ensures CameRound(s, size, capacity)
    ensures s.held == Some((1, first)) && s.payloads[WORD_RANGE] == last
  {
    hide LegalRun, AfterRun, Reachable;
    var z := Initial(capacity);
    var seen := OneSeenCommand(first, size, capacity);
    var s1 := AfterRun(z, seen, size);
    FromTheStart(seen, size, capacity);
    var reading := LoopReadCanComplete(s1, size);
    ReachesOn(s1, reading, size, capacity);
    var s2 := AfterRun(s1, reading, size);
    ReachableInv(s2, size, capacity);
    ReachableInv(s1, size, capacity);
    var many := ManyDeliveries(s2, last, WORD_RANGE, size);
    ReachesOn(s2, many, size, capacity);
    s := AfterRun(s2, many, size);
  }

  /** But it need not be lost: a read that was only decided on before the 2^32 commands came in still
      gets the last of them. */
  lemma ALateReadCatchesUp(first: seq<byte>, last: seq<byte>, size: nat, capacity: nat) returns (s: Channel)
    requires |first| == |last| == size <= capacity
    ensures CameRound(s, size, capacity)
    ensures s.held == Some((WORD_RANGE + 1, last)) && s.payloads[WORD_RANGE] == last
  {
    hide LegalRun, AfterRun, Reachable;
    var z := Initial(capacity);
    var seen := OneSeenCommand(first, size, capacity);
    var s1 := AfterRun(z, seen, size);
    FromTheStart(seen, size, capacity);
    var many := ManyDeliveries(s1, last, WORD_RANGE, size);
    ReachesOn(s1, many, size, capacity);
    var s2 := AfterRun(s1, many, size);
    ReachableInv(s2, size, capacity);
    var reading := LoopReadCanComplete(s2, size);
    ReachesOn(s2, reading, size, capacity);
    s := AfterRun(s2, reading, size);
    ReachableInv(s, size, capacity);
  }

  lemma FromTheStart(run: seq<Event>, size: nat, capacity: nat)
    requires LegalRun(Initial(capacity), run, size)
    ensures Reachable(AfterRun(Initial(capacity), run, size), size, capacity)
  {}
}
