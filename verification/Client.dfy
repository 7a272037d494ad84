/**
 ZenbeddedClient with the Tier 1 codecs: zenbedded_rcl/include/zenbedded_rcl/zenbedded_client.hpp
 and zenbedded_rcl/src/zenbedded_client.cpp on top of the double buffers and the transport.
 */
module Client {
  import opened Bytes
  import opened Cdr
  import opened Serialization
  import opened CdrConformance
  import opened DoubleBuffer
  import opened StateChannel
  import T = Transport
  import opened ZenohTransport

  const EIO: int := 5
  const ENOMEM: int := 12
  const ENODEV: int := 19

  // ---- the transport calls of a client's life ------------------------------------------------

  /** Everything the outside decides during one init. */
  datatype Weather = Weather(sessionOk: bool, nodeTokenOk: bool, pub: T.Answer, sub: T.Answer)

  /** What init_base does to the transport, and the two handles if it gets that far. */
  function Attach(m: T.Model, w: Weather, callback: nat): (T.Model, Option<(nat, nat)>) {
    var (m0, ret) := T.Init(m, w.sessionOk, w.nodeTokenOk);
    if ret != 0 then (m0, None)
    else
      var (m1, pub) := T.DeclarePublisher(m0, w.pub);
      if pub.None? then (T.Destroy(m1), None)
      else
        var (m2, sub) := T.DeclareSubscriber(m1, w.sub, callback);
        if sub.None? then (T.Destroy(m2), None)
        else (m2, Some((pub.value, sub.value)))
  }

  /** Which pool entries are taken. */
  function InUse(slots: seq<T.Slot>): (u: seq<bool>)
    ensures |u| == |slots| && forall i :: 0 <= i < |u| ==> u[i] == slots[i].inUse
  {
    seq<bool>(|slots|, (i: nat) requires i < |slots| => slots[i].inUse)
  }

  lemma AttachKeeps(m: T.Model, w: Weather, callback: nat)
    requires T.Consistent(m)
    ensures T.Consistent(Attach(m, w, callback).0)
  {
    hide T.Consistent, T.Init, T.DeclarePublisher, T.DeclareSubscriber, T.Destroy;
    var m0 := T.Init(m, w.sessionOk, w.nodeTokenOk).0;
    var m1 := T.DeclarePublisher(m0, w.pub).0;
    T.InitKeeps(m, w.sessionOk, w.nodeTokenOk);
    T.DeclarePublisherKeeps(m0, w.pub);
    T.DestroyKeeps(m1);
    T.DeclareSubscriberKeeps(m1, w.sub, callback);
    T.DestroyKeeps(T.DeclareSubscriber(m1, w.sub, callback).0);
  }

  /** destroy does not undeclare the client's own publisher and subscriber: an attach followed by
      a destroy gives the pools back exactly when the client was the only user.  With another
      user holding the session, both entries stay taken. */
  lemma DetachFreesOnlyWithTheLastReference(m: T.Model, w: Weather, callback: nat)
    requires T.Consistent(m) && T.CountedExactly(m) && m.refs < WORD_RANGE - 1
    requires Attach(m, w, callback).1.Some?
    ensures var a, h := Attach(m, w, callback).0, Attach(m, w, callback).1.value;
      var d := T.Destroy(a);
      && h.0 < |m.pubs| && !m.pubs[h.0].inUse && h.1 < |m.subs| && !m.subs[h.1].inUse
      && |d.pubs| == |m.pubs| && |d.subs| == |m.subs|
      && (InUse(d.pubs) == InUse(m.pubs) && InUse(d.subs) == InUse(m.subs) <==> !m.open)
      && (!m.open ==> d.live == {} && !d.open)
      && (m.open ==> d.refs == m.refs && d.pubs[h.0].inUse && d.subs[h.1].inUse)
  {
    hide Attach, T.TearDown, T.Ledger, T.AllOwned;
    var (a, h) := Attach(m, w, callback);
    AttachKeeps(m, w, callback);
    AttachedHandles(m, w, callback);
    var d := T.Destroy(a);
    if m.open {
      assert d == a.(refs := m.refs);
      assert InUse(d.pubs)[h.value.0] != InUse(m.pubs)[h.value.0];
    } else {
      T.LastDestroy(a);
      T.TearDownSizes(a.(refs := 0));
      SameUse(d.pubs, m.pubs);
      SameUse(d.subs, m.subs);
    }
  }

  lemma SameUse(a: seq<T.Slot>, b: seq<T.Slot>)
    requires |a| == |b| && T.NoneInUse(a) && T.NoneInUse(b)
    ensures InUse(a) == InUse(b)
  {
  }

  lemma InitFacts(m: T.Model, w: Weather)
    requires m.refs < WORD_RANGE - 1 && T.Init(m, w.sessionOk, w.nodeTokenOk).1 == 0
    ensures var r := T.Init(m, w.sessionOk, w.nodeTokenOk).0;
      && r.initialized && r.refs == (if m.initialized then m.refs + 1 else 1)
      && r.pubs == m.pubs && r.subs == m.subs
  {}

  lemma PublisherFacts(m: T.Model, a: T.Answer)
    ensures var (r, h) := T.DeclarePublisher(m, a);
      && r.initialized == m.initialized && r.refs == m.refs && r.subs == m.subs && |r.pubs| == |m.pubs|
      && (h.None? ==> r == m)
      && (h.Some? ==> h.value < |m.pubs| && !m.pubs[h.value].inUse && r.pubs[h.value].inUse)
  {
    hide T.FirstFree;
  }

  lemma SubscriberFacts(m: T.Model, a: T.Answer, callback: nat)
    ensures var (r, h) := T.DeclareSubscriber(m, a, callback);
      && r.initialized == m.initialized && r.refs == m.refs && r.pubs == m.pubs && |r.subs| == |m.subs|
      && (h.None? ==> InUse(r.subs) == InUse(m.subs))
      && (h.Some? ==> h.value < |m.subs| && !m.subs[h.value].inUse && r.subs[h.value].inUse
                      && r.subs[h.value].callback == callback)
  {
    hide T.FirstFree;
  }

  lemma AttachedHandles(m: T.Model, w: Weather, callback: nat)
    requires T.Consistent(m) && m.refs < WORD_RANGE - 1 && Attach(m, w, callback).1.Some?
    ensures var a, h := Attach(m, w, callback).0, Attach(m, w, callback).1.value;
      && a.initialized && a.refs == (if m.initialized then m.refs + 1 else 1)
      && |a.pubs| == |m.pubs| && |a.subs| == |m.subs|
      && h.0 < |m.pubs| && !m.pubs[h.0].inUse && h.1 < |m.subs| && !m.subs[h.1].inUse
      && a.pubs[h.0].inUse && a.subs[h.1].inUse && a.subs[h.1].callback == callback
  {
    hide T.Consistent, T.Init, T.DeclarePublisher, T.DeclareSubscriber, T.Destroy;
    var m0 := T.Init(m, w.sessionOk, w.nodeTokenOk).0;
    InitFacts(m, w);
    PublisherFacts(m0, w.pub);
    var (m1, pub) := T.DeclarePublisher(m0, w.pub);
    SubscriberFacts(m1, w.sub, callback);
    var (m2, sub) := T.DeclareSubscriber(m1, w.sub, callback);
    assert Attach(m, w, callback) == (m2, Some((pub.value, sub.value)));
  }

  /** The publisher is granted before the subscriber is asked for. */
  predicate PublisherGranted(m: T.Model, w: Weather) {
    var (m0, ret) := T.Init(m, w.sessionOk, w.nodeTokenOk);
    ret == 0 && T.DeclarePublisher(m0, w.pub).1.Some?
  }

  /** A refused attach leaves the count and the session as they were, but it gives the pools back exactly
      when no publisher was granted or no one else held the session: init_base answers a refused
      subscriber with destroy, which does not undeclare the publisher while other users remain, so that
      a publisher entry that was free stays taken. */
  lemma RefusedAttachMayKeepAPublisher(m: T.Model, w: Weather, callback: nat)
    requires T.Consistent(m) && T.CountedExactly(m) && m.refs < WORD_RANGE - 1
    requires Attach(m, w, callback).1.None?
    ensures var r := Attach(m, w, callback).0;
      && r.open == m.open && r.refs == m.refs
      && (InUse(r.pubs) == InUse(m.pubs) && InUse(r.subs) == InUse(m.subs)
          <==> !PublisherGranted(m, w) || !m.open)
      && (PublisherGranted(m, w) && m.open ==>
            && InUse(r.subs) == InUse(m.subs)
            && exists h :: 0 <= h < |m.pubs| == |r.pubs| && !m.pubs[h].inUse && r.pubs[h].inUse)
  {
    hide T.Init, T.DeclarePublisher, T.DeclareSubscriber, T.Destroy, T.Consistent;
    var (m0, ret) := T.Init(m, w.sessionOk, w.nodeTokenOk);
    if ret != 0 {
      FailedInit(m, w);
    } else {
      InitFacts(m, w);
      T.InitKeeps(m, w.sessionOk, w.nodeTokenOk);
      PublisherFacts(m0, w.pub);
      T.DeclarePublisherKeeps(m0, w.pub);
      var (m1, pub) := T.DeclarePublisher(m0, w.pub);
      if pub.None? {
        GivenUp(m, m1);
      } else {
        SubscriberFacts(m1, w.sub, callback);
        T.DeclareSubscriberKeeps(m1, w.sub, callback);
        GivenUp(m, T.DeclareSubscriber(m1, w.sub, callback).0);
        assert InUse(m.pubs)[pub.value] != InUse(m1.pubs)[pub.value];
      }
    }
  }

  lemma FailedInit(m: T.Model, w: Weather)
    requires T.Init(m, w.sessionOk, w.nodeTokenOk).1 != 0
    ensures T.Init(m, w.sessionOk, w.nodeTokenOk).0 == m
  {}

  /** What the destroy that gives up makes of a transport that was entered once more. */
  lemma GivenUp(m: T.Model, a: T.Model)
    requires T.Consistent(m) && T.CountedExactly(m) && T.Consistent(a)
    requires a.initialized && a.refs == (if m.initialized then m.refs + 1 else 1)
    requires |a.pubs| == |m.pubs| && |a.subs| == |m.subs|
    ensures var d := T.Destroy(a);
      && d.open == m.open && d.refs == m.refs
      && (m.open ==> d.pubs == a.pubs && d.subs == a.subs)
      && (!m.open ==> InUse(d.pubs) == InUse(m.pubs) && InUse(d.subs) == InUse(m.subs))
  {
    hide T.TearDown, T.Ledger, T.AllOwned;
    if !m.open {
      T.LastDestroy(a);
      T.TearDownSizes(a.(refs := 0));
      TearDownKeepsCount(a.(refs := 0));
      SameUse(T.Destroy(a).pubs, m.pubs);
      SameUse(T.Destroy(a).subs, m.subs);
    }
  }

  lemma TearDownKeepsCount(m: T.Model)
    ensures T.TearDown(m).refs == m.refs
  {
    hide T.UndeclarePublishers, T.UndeclareSubscribers, T.UndeclareToken;
    T.LoopsKeepNext(m, |m.pubs|);
    T.LoopsKeepNext(T.UndeclarePublishers(m, |m.pubs|), |m.subs|);
  }

  // ---- the class -----------------------------------------------------------------------------

  class ZenbeddedClient {
    const transport: Service
    const stateBuffer: DoubleByteBuffer
    const cmdBuffer: DoubleByteBuffer
    const id: nat  // what the subscriber callback is registered with
    var initialized: bool
    var stateCtx: StateCtx
    var cmdCtx: CommandCtx
    var statePayloadSize: nat
    var cmdPayloadSize: nat
    var handles: Option<(nat, nat)>
    var acceptedCount: uint32
    var controlFreq: uint32
    var threadStarted: bool

    ghost predicate Valid()
      reads this, transport, stateBuffer, cmdBuffer
    {
      && transport.pubPool != transport.subPool && stateBuffer.Valid() && cmdBuffer.Valid()
      && stateBuffer != cmdBuffer
      && stateBuffer.buffer0 != cmdBuffer.buffer0 && stateBuffer.buffer0 != cmdBuffer.buffer1
      && stateBuffer.buffer1 != cmdBuffer.buffer0 && stateBuffer.buffer1 != cmdBuffer.buffer1
      && (initialized ==>
            && statePayloadSize == stateCtx.payloadSize <= stateBuffer.Capacity()
            && cmdPayloadSize == cmdCtx.payloadSize <= cmdBuffer.Capacity()
            && LayoutsFit())
    }

    /** The recorded windows lie within the payloads. */
    ghost predicate LayoutsFit()
      reads this
    {
      && StateCtxFits(stateCtx, stateCtx.payloadSize)
      && cmdCtx.offsetTimestamp + 8 <= cmdCtx.payloadSize
      && cmdCtx.offsetValues + 8 * cmdCtx.numJoints <= cmdCtx.payloadSize
    }

    constructor (transport: Service, stateCapacity: nat, cmdCapacity: nat, id: nat)
      requires transport.pubPool != transport.subPool
      ensures Valid() && !initialized && !threadStarted && handles.None? && acceptedCount == 0
      ensures this.transport == transport && this.id == id
      ensures stateBuffer.Capacity() == stateCapacity && cmdBuffer.Capacity() == cmdCapacity
      ensures stateBuffer.Active() == Zeros(stateCapacity) && cmdBuffer.Active() == Zeros(cmdCapacity)
    {
      this.transport, this.id := transport, id;
      stateBuffer := new DoubleByteBuffer(stateCapacity);
      cmdBuffer := new DoubleByteBuffer(cmdCapacity);
      stateCtx, cmdCtx := StateCtx(0, 0, 0, 0, 0, 0), CommandCtx(0, 0, 0, 0);
      initialized, statePayloadSize, cmdPayloadSize := false, 0, 0;
      handles, acceptedCount, controlFreq, threadStarted := None, 0, 0, false;
    }

    /** write_state: the invisible slot gets the patch and becomes visible; what was visible
        stays behind, untouched, for the write after this one. */
    method WriteState(v: StateValue)
      requires Valid() && (initialized ==> ValueFits(v, stateCtx.numJoints))
      modifies stateBuffer, stateBuffer.buffer0, stateBuffer.buffer1
      ensures Valid()
      ensures initialized ==>
                && CopiesFit(StateCopies(stateCtx, v), stateBuffer.Capacity())
                && stateBuffer.Active() == ApplyCopies(old(stateBuffer.Inactive()), StateCopies(stateCtx, v))
                && stateBuffer.Inactive() == old(stateBuffer.Active())
      ensures !initialized ==> stateBuffer.Active() == old(stateBuffer.Active())
                               && stateBuffer.Inactive() == old(stateBuffer.Inactive())
    {
      if !initialized { return; }
      var writeIdx, buf := stateBuffer.PrepareWrite();
      SerializeJointState(stateCtx, v, buf);
      stateBuffer.CommitWrite(writeIdx);
    }

    /** on_transport_cmd_cb: only the exact size is admitted; commit, then count. */
    method OnTransportCommand(payload: array<byte>)
      requires Valid() && payload != cmdBuffer.buffer0 && payload != cmdBuffer.buffer1
      modifies this`acceptedCount, cmdBuffer, cmdBuffer.buffer0, cmdBuffer.buffer1
      ensures Valid()
      ensures payload.Length == cmdPayloadSize <= cmdBuffer.Capacity() ==>
                && cmdBuffer.Active()[..cmdPayloadSize] == payload[..]
                && cmdBuffer.Inactive() == old(cmdBuffer.Active())
      ensures payload.Length == cmdPayloadSize ==> acceptedCount == (old(acceptedCount) + 1) % WORD_RANGE
      ensures payload.Length != cmdPayloadSize ==>
                && cmdBuffer.Active() == old(cmdBuffer.Active())
                && cmdBuffer.Inactive() == old(cmdBuffer.Inactive())
                && acceptedCount == old(acceptedCount)
    {
      if payload.Length != cmdPayloadSize { return; }
      var ok := cmdBuffer.Write(payload, payload.Length);
      assert payload[..payload.Length] == payload[..];
      acceptedCount := (acceptedCount + 1) % WORD_RANGE;
    }

    /** read_command */
    method ReadCommand() returns (r: Option<(Stamp, seq<Double>)>)
      requires Valid()
      ensures r == if initialized then DeserializeJointCommand(cmdCtx, cmdBuffer.Active()[..cmdPayloadSize]) else None
    {
      if !initialized { return None; }
      var tmp := new byte[cmdBuffer.Capacity()];
      var ok := cmdBuffer.ReadLatest(tmp, cmdPayloadSize);
      assert tmp[..cmdPayloadSize] == cmdBuffer.Active()[..cmdPayloadSize];
      r := DeserializeJointCommand(cmdCtx, tmp[..cmdPayloadSize]);
    }

    /** zenoh_publish_state: what goes out is the front of the visible slot. */
    method PublishState(accepted: bool) returns (ret: int, sent: seq<byte>)
      requires Valid() && (initialized ==> handles.Some?)
      modifies transport`puts, transport.pubPool
      ensures !initialized ==> ret == -ENODEV && transport.Abs() == old(transport.Abs())
      ensures initialized ==>
                && sent == stateBuffer.Active()[..statePayloadSize]
                && (transport.Abs(), ret) == T.Publish(old(transport.Abs()), handles.value.0, sent, accepted)
      ensures var h := if handles.Some? then handles.value.0 else 0;
              initialized && h < transport.pubPool.Length && transport.pubPool[h].inUse ==>
                && |transport.puts| == |old(transport.puts)| + 1 && old(transport.puts) <= transport.puts
                && transport.puts[|old(transport.puts)|].payload == stateBuffer.Active()[..statePayloadSize]
                && transport.puts[|old(transport.puts)|].entity == transport.pubPool[h].entity
                && (ret == 0 <==> accepted)
    {
      if !initialized { return -ENODEV, []; }
      var tmp := new byte[stateBuffer.Capacity()];
      var ok := stateBuffer.ReadLatest(tmp, statePayloadSize);
      assert tmp[..statePayloadSize] == stateBuffer.Active()[..statePayloadSize];
      sent := tmp[..statePayloadSize];
      ret := transport.PublishOn(handles.value.0, sent, accepted);
    }

    method StopThread()
      modifies this`threadStarted, this`controlFreq
      ensures !threadStarted && controlFreq == if old(threadStarted) then 0 else old(controlFreq)
    {
      if !threadStarted { return; }
      threadStarted := false;
      controlFreq := 0;
    }

    method StartThread(freq: uint32) returns (ret: int)
      modifies this`threadStarted, this`controlFreq
      ensures !initialized ==> ret == -ENODEV && threadStarted == old(threadStarted) && controlFreq == old(controlFreq)
      ensures initialized && freq == 0 ==>
                ret == -T.EINVAL && threadStarted == old(threadStarted) && controlFreq == old(controlFreq)
      ensures initialized && freq != 0 ==> ret == 0 && threadStarted && controlFreq == freq
    {
      if !initialized { return -ENODEV; }
      if freq == 0 { return -T.EINVAL; }
      if threadStarted { StopThread(); }
      controlFreq := freq;
      threadStarted := true;
      ret := 0;
    }

    /** The transport half of init_base. */
    method AttachTransport(w: Weather) returns (h: Option<(nat, nat)>)
      requires transport.pubPool != transport.subPool
      modifies transport, transport.pubPool, transport.subPool
      ensures (transport.Abs(), h) == Attach(old(transport.Abs()), w, id)
    {
      hide T.Init, T.DeclarePublisher, T.DeclareSubscriber, T.Destroy;
      var started := transport.Initialize(w.sessionOk, w.nodeTokenOk);
      if started != 0 { return None; }
      var pub := transport.DeclarePub(w.pub);
      if pub.None? {
        transport.Shutdown();
        return None;
      }
      var sub := transport.DeclareSub(w.sub, id);
      if sub.None? {
        transport.Shutdown();
        return None;
      }
      h := Some((pub.value, sub.value));
    }

    predicate SizesFit(stateSize: nat, cmdSize: nat) {
      stateSize <= stateBuffer.Capacity() && cmdSize <= cmdBuffer.Capacity()
    }

    /** The transport is where attaching took it, and the client is initialised if that gave it
        both handles. */
    ghost predicate Attached(before: T.Model, w: Weather)
      reads this, transport, transport.pubPool, transport.subPool
    {
      && transport.Abs() == Attach(before, w, id).0
      && (initialized <==> Attach(before, w, id).1.Some?)
      && (initialized ==> handles == Attach(before, w, id).1)
    }

    method AttachAndStart(freq: uint32, w: Weather) returns (ret: int)
      requires transport.pubPool != transport.subPool && !initialized
      modifies this`initialized, this`handles, this`controlFreq, this`threadStarted
      modifies transport, transport.pubPool, transport.subPool
      ensures Attached(old(transport.Abs()), w)
      ensures (ret == 0 <==> initialized && freq != 0) && (!initialized ==> ret == -EIO)
      ensures initialized ==> controlFreq == freq && (freq != 0 ==> threadStarted)
    {
      hide Attach;
      var h := AttachTransport(w);
      if h.None? { return -EIO; }
      handles := h;
      initialized := true;
      controlFreq := freq;
      ret := StartThread(freq);
    }

    /** init_base.  A client that is already initialised is left alone. Otherwise it succeeds in
        initialising exactly when both sizes fit and the transport grants both handles; a frequency
        of zero is then still reported as an error. */
    method InitBase(freq: uint32, stateSize: nat, cmdSize: nat, w: Weather) returns (ret: int)
      requires Valid()
      requires !initialized ==> LayoutsFit() && stateSize == stateCtx.payloadSize && cmdSize == cmdCtx.payloadSize
      modifies this`initialized, this`statePayloadSize, this`cmdPayloadSize, this`handles
      modifies this`controlFreq, this`threadStarted, transport, transport.pubPool, transport.subPool
      ensures Valid()
      ensures old(initialized) ==>
                && ret == 0 && initialized && transport.Abs() == old(transport.Abs()) && handles == old(handles)
                && threadStarted == old(threadStarted) && controlFreq == old(controlFreq)
                && statePayloadSize == old(statePayloadSize) && cmdPayloadSize == old(cmdPayloadSize)
      ensures !old(initialized) && !SizesFit(stateSize, cmdSize) ==>
                ret == -ENOMEM && !initialized && transport.Abs() == old(transport.Abs())
      ensures !old(initialized) && SizesFit(stateSize, cmdSize) ==>
                Attached(old(transport.Abs()), w) && (ret == 0 <==> initialized && freq != 0)
                && (!initialized ==> ret == -EIO)
      ensures !old(initialized) && initialized ==>
                && statePayloadSize == stateSize && cmdPayloadSize == cmdSize && controlFreq == freq
                && (freq != 0 ==> threadStarted)
    {
      if initialized { return 0; }
      statePayloadSize := stateSize;
      if statePayloadSize > stateBuffer.Capacity() { return -ENOMEM; }
      cmdPayloadSize := cmdSize;
      if cmdPayloadSize > cmdBuffer.Capacity() { return -ENOMEM; }
      ret := AttachAndStart(freq, w);
    }

    /** destroy */
    method Destroy()
      requires transport.pubPool != transport.subPool
      modifies this, transport, transport.pubPool, transport.subPool
      ensures !initialized
      ensures old(initialized) ==> transport.Abs() == T.Destroy(old(transport.Abs())) && handles.None? && !threadStarted
      ensures !old(initialized) ==> transport.Abs() == old(transport.Abs())
    {
      if !initialized { return; }
      StopThread();
      transport.Shutdown();
      handles := None;
      initialized := false;
    }

    method ResetBuffers()
      requires Valid()
      modifies this`acceptedCount, stateBuffer, stateBuffer.buffer0, stateBuffer.buffer1
      modifies cmdBuffer, cmdBuffer.buffer0, cmdBuffer.buffer1
      ensures Valid() && acceptedCount == 0
      ensures stateBuffer.Active() == Zeros(stateBuffer.Capacity())
      ensures stateBuffer.Inactive() == Zeros(stateBuffer.Capacity())
      ensures cmdBuffer.Active() == Zeros(cmdBuffer.Capacity()) && cmdBuffer.Inactive() == Zeros(cmdBuffer.Capacity())
    {
      stateBuffer.Reset();
      cmdBuffer.Reset();
      acceptedCount := 0;
    }

    ghost predicate SlotsShow(m: JointState)
      reads stateBuffer, stateBuffer.buffer0, stateBuffer.buffer1
    {
      && stateBuffer.Valid()
      && Shows(stateBuffer.Active(), m, stateBuffer.Capacity())
      && Shows(stateBuffer.Inactive(), m, stateBuffer.Capacity())
    }

    /** The slots are written before the sizes are checked, so a caller must fit them. */
    predicate PayloadsFit(frame: CString, names: seq<CString>, interface_: CString) {
      && StateLayout(frame, names).payloadSize <= stateBuffer.Capacity() < WORD_RANGE
      && CommandLayout(frame, names, interface_).payloadSize <= cmdBuffer.Capacity() < WORD_RANGE
    }

    lemma Fitting(frame: CString, names: seq<CString>, interface_: CString)
      requires PayloadsFit(frame, names, interface_)
      ensures StateLayout(frame, names).payloadSize <= stateBuffer.Capacity()
      ensures CommandLayout(frame, names, interface_).payloadSize <= cmdBuffer.Capacity()
    {
    }

    /** The codec half of init: afterwards both state slots show the all-zero message with this
        frame and these joints, ready to be patched (without joints the template does not conform). */
    method InitCodecs(frameId: Option<CString>, names: seq<CString>, interfaceName: Option<CString>)
      requires Valid() && !initialized
      requires PayloadsFit(Text(frameId), names, Text(interfaceName))
      modifies this, stateBuffer, stateBuffer.buffer0, stateBuffer.buffer1
      modifies cmdBuffer, cmdBuffer.buffer0, cmdBuffer.buffer1
      ensures Valid() && !initialized && acceptedCount == 0
      ensures stateCtx == StateLayout(Text(frameId), names)
      ensures cmdCtx == CommandLayout(Text(frameId), names, Text(interfaceName))
      ensures |names| >= 1 ==> SlotsShow(Message(Text(frameId), names, [], 0))
    {
      hide StateLayout, CommandLayout, StateTemplate, CommandTemplate, Shows, BlankState;
      ResetBuffers();
      stateCtx := InitJointState(frameId, names, stateBuffer.Slot(0));
      if |names| >= 1 { InitShowsZero(stateBuffer.Slot(0)[..], Text(frameId), names, stateBuffer.Capacity()); }
      stateCtx := InitJointState(frameId, names, stateBuffer.Slot(1));
      if |names| >= 1 { InitShowsZero(stateBuffer.Slot(1)[..], Text(frameId), names, stateBuffer.Capacity()); }
      var scratch := new byte[cmdBuffer.Capacity()];
      cmdCtx := InitJointCommand(frameId, names, interfaceName, scratch);
    }

    /** init.  A client that is already initialised is left alone and reports success - also when
        it got there through a frequency of zero and has no thread. */
    method Init(freq: uint32, frameId: Option<CString>, names: seq<CString>, interfaceName: Option<CString>, w: Weather)
      returns (ret: int)
      requires Valid() && PayloadsFit(Text(frameId), names, Text(interfaceName))
      modifies this, transport, transport.pubPool, transport.subPool
      modifies stateBuffer, stateBuffer.buffer0, stateBuffer.buffer1
      modifies cmdBuffer, cmdBuffer.buffer0, cmdBuffer.buffer1
      ensures old(initialized) ==> ret == 0 && initialized && threadStarted == old(threadStarted)
                                   && transport.Abs() == old(transport.Abs())
      ensures !old(initialized) ==>
                && Attached(old(transport.Abs()), w) && (ret == 0 <==> initialized && freq != 0)
                && stateCtx == StateLayout(Text(frameId), names)
                && cmdCtx == CommandLayout(Text(frameId), names, Text(interfaceName)) && acceptedCount == 0
                && (initialized ==>
                      && controlFreq == freq && (freq != 0 ==> threadStarted)
                      && statePayloadSize == stateCtx.payloadSize && cmdPayloadSize == cmdCtx.payloadSize)
                && (|names| >= 1 ==> SlotsShow(Message(Text(frameId), names, [], 0)))
      ensures Valid()
    {
      if initialized { return 0; }
      hide StateLayout, CommandLayout, SlotsShow, Attach, Message, PayloadsFit;
      InitCodecs(frameId, names, interfaceName);
      LayoutOffsets(Text(frameId), names);
      CommandLayoutEnds(Text(frameId), names, Text(interfaceName));
      Fitting(Text(frameId), names, Text(interfaceName));
      ret := InitBase(freq, stateCtx.payloadSize, cmdCtx.payloadSize, w);
    }
  }
}
