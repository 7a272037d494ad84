/**
 The way up with Tier 2 structs, from the firmware's `write_state` through its double buffer and the
 wire to what the host's hardware component reports.
 */
module StatePath {
  import opened Bytes
  import opened Schema
  import opened FieldAccess
  import opened RawChannel
  import D = DoubleBuffer
  import H = HardwareModel

  /** The board from its reset to the end of the run. */
  function AfterBoard(capacity: nat, run: seq<D.Step>): (s: D.State)
    requires D.Legal(D.Start(Zeros(capacity), Zeros(capacity)), run)
    ensures D.Shaped(s)
  {
    D.After(D.Start(Zeros(capacity), Zeros(capacity)), run)
  }

  /** Its committed writes are those of `write_state` with these structs. */
  ghost predicate BoardWrote(capacity: nat, size: nat, structs: seq<seq<byte>>, run: seq<D.Step>) {
    && size <= capacity && D.Legal(D.Start(Zeros(capacity), Zeros(capacity)), run)
    && WritesOf(structs, size, AfterBoard(capacity, run).writes)
  }

  /** The struct a version of the buffer shows: zeros until the first commit makes version 2. */
  function Shown(structs: seq<seq<byte>>, size: nat, version: nat): seq<byte>
    requires version < |structs| + 2
  {
    if version < 2 then Zeros(size) else structs[version - 2]
  }

  /** A read of the struct's size, such as the publisher's, hands over one committed struct. */
  lemma ReadsAreStructs(capacity: nat, size: nat, structs: seq<seq<byte>>, run: seq<D.Step>, j: nat)
    requires BoardWrote(capacity, size, structs, run)
    requires j < |AfterBoard(capacity, run).seen| && |AfterBoard(capacity, run).seen[j].bytes| == size
    ensures var read := AfterBoard(capacity, run).seen[j];
      1 <= read.version < |structs| + 2 && read.bytes == Shown(structs, size, read.version)
  {
    hide D.Version;
    var z, s := Zeros(capacity), AfterBoard(capacity, run);
    D.ReadsNeverGoBack(z, z, run);
    var v := s.seen[j].version;
    if v >= 2 {
      D.WholeWriteShowsItsData(z, z, s.writes, v - 2, structs[v - 2]);
    } else {
      FirstVersion(z, s.writes);
      assert z[..size] == Zeros(size);
    }
  }

  predicate RightSized(c: H.Config, op: H.Op) { op.Sample? && |op.payload| == c.stateSize }

  /** Payload k of the state's size is what read at[k] of the board handed over. The network may lose,
      repeat and reorder payloads, and may deliver anything of any other size. */
  ghost predicate Carries(c: H.Config, published: seq<D.Read>, ops: seq<H.Op>, at: seq<nat>) {
    && |at| == |ops|
    && forall k :: 0 <= k < |ops| && RightSized(c, ops[k]) ==>
         at[k] < |published| && published[at[k]].bytes == ops[k].payload
  }

  /** The call in which the component last took a sample in. */
  function LastTaken(c: H.Config, ops: seq<H.Op>): (t: Option<nat>)
    requires H.ConfigOk(c) && H.AllLegal(c, ops)
    ensures t.Some? ==> t.value < |ops| && RightSized(c, ops[t.value]) && H.LastSample(c, ops) == ops[t.value].payload
    ensures t.None? ==> H.LastSample(c, ops) == Zeros(c.stateSize)
  {
    if ops == [] then None
    else
      var init, op := ops[..|ops| - 1], ops[|ops| - 1];
      if RightSized(c, op) && H.Connected(init) >= 2 then Some(|ops| - 1) else LastTaken(c, init)
  }

  /** The version of the board's buffer the component reports from, 1 while it has taken nothing in. */
  function ReportedVersion(c: H.Config, published: seq<D.Read>, ops: seq<H.Op>, at: seq<nat>): nat
    requires H.ConfigOk(c) && H.AllLegal(c, ops)
    requires Carries(c, published, ops, at)
  {
    var t := LastTaken(c, ops);
    if t.Some? then published[at[t.value]].version else 1
  }

  lemma LastSampleIsAStruct(
      c: H.Config, capacity: nat, structs: seq<seq<byte>>, run: seq<D.Step>, ops: seq<H.Op>, at: seq<nat>)
    requires H.ConfigOk(c) && H.AllLegal(c, ops) && BoardWrote(capacity, c.stateSize, structs, run)
    requires Carries(c, AfterBoard(capacity, run).seen, ops, at)
    ensures var v := ReportedVersion(c, AfterBoard(capacity, run).seen, ops, at);
      1 <= v < |structs| + 2 && H.LastSample(c, ops) == Shown(structs, c.stateSize, v)
  {
    hide BoardWrote;
    var t := LastTaken(c, ops);
    if t.Some? { ReadsAreStructs(capacity, c.stateSize, structs, run, at[t.value]); }
  }

  /** Whatever the interleaving on the board and whatever the network does, a read of the component that
      gets the lock reports, in every field i, the value of one and the same written struct. */
  lemma HostReportsAWrittenStruct(
      c: H.Config, capacity: nat, structs: seq<seq<byte>>, run: seq<D.Step>, ops: seq<H.Op>, at: seq<nat>,
      missed: set<nat>, i: nat)
    requires H.ConfigOk(c) && H.AllLegal(c, ops) && BoardWrote(capacity, c.stateSize, structs, run)
    requires Carries(c, AfterBoard(capacity, run).seen, ops, at) && i < |c.stateFields|
    ensures H.AllLegal(c, ops + [H.Read(false, missed)])
    ensures var v := ReportedVersion(c, AfterBoard(capacity, run).seen, ops, at);
            var s := H.Run(c, ops + [H.Read(false, missed)]);
      && 1 <= v < |structs| + 2 && |Shown(structs, c.stateSize, v)| == c.stateSize
      && var value := ReadField(c.casts, c.stateFields, Shown(structs, c.stateSize, v), i);
         s.hwStates[i] == value && (i !in missed ==> s.stateValues[i] == value)
  {
    hide Carries, ReadField, Tiles, Shown;
    LastSampleIsAStruct(c, capacity, structs, run, ops, at);
    H.ReadReportsLastSample(c, ops, missed, i);
  }

  /** So when each struct packs some values the component reports those of one `write_state`, converted
      to the types of their fields. */
  lemma HostReportsTheWrittenValues(
      c: H.Config, capacity: nat, structs: seq<seq<byte>>, run: seq<D.Step>, ops: seq<H.Op>, at: seq<nat>,
      missed: set<nat>, written: seq<seq<Double>>, i: nat)
    requires H.ConfigOk(c) && H.AllLegal(c, ops) && BoardWrote(capacity, c.stateSize, structs, run)
    requires Carries(c, AfterBoard(capacity, run).seen, ops, at) && i < |c.stateFields|
    requires |written| == |structs|
    requires forall k :: 0 <= k < |structs| ==>
               ValuesFit(c.casts, c.stateFields, written[k])
               && structs[k] == Packed(c.casts, c.stateFields, written[k])
    ensures H.AllLegal(c, ops + [H.Read(false, missed)])
    ensures var v := ReportedVersion(c, AfterBoard(capacity, run).seen, ops, at);
      && 1 <= v < |written| + 2
      && (v >= 2 ==>
            && ValuesFit(c.casts, c.stateFields, written[v - 2])
            && H.Run(c, ops + [H.Read(false, missed)]).hwStates[i]
               == Converted(c.casts, c.stateFields[i].type_, written[v - 2][i]))
  {
    hide Carries, ReadField, Tiles, Packed, Converted, WritesOf, H.Run, ReportedVersion, AfterBoard, H.AllLegal;
    HostReportsAWrittenStruct(c, capacity, structs, run, ops, at, missed, i);
    hide ValuesFit;
    var v := ReportedVersion(c, AfterBoard(capacity, run).seen, ops, at);
    if v >= 2 { PackedReadsBack(c.casts, c.stateFields, written[v - 2], c.stateSize, i); }
  }

  /** The network keeps the order of the payloads. */
  ghost predicate InOrder(c: H.Config, ops: seq<H.Op>, at: seq<nat>) {
    |at| == |ops| && forall k, l :: 0 <= k < l < |ops| && RightSized(c, ops[k]) && RightSized(c, ops[l]) ==>
                       at[k] <= at[l]
  }

  /** A later sample is taken later. */
  lemma {:induction false} TakenLater(c: H.Config, ops: seq<H.Op>, n: nat)
    requires H.ConfigOk(c) && H.AllLegal(c, ops) && n <= |ops|
    ensures LastTaken(c, ops[..n]).Some? ==>
              LastTaken(c, ops).Some? && LastTaken(c, ops[..n]).value <= LastTaken(c, ops).value
  {
    if n == |ops| {
      assert ops[..n] == ops;
    } else {
      var init := ops[..|ops| - 1];
      assert init[..n] == ops[..n];
      TakenLater(c, init, n);
    }
  }

  /** Then what the component reports never goes back to an older `write_state`. */
  lemma ReportsNeverGoBack(
      c: H.Config, capacity: nat, structs: seq<seq<byte>>, run: seq<D.Step>, ops: seq<H.Op>, at: seq<nat>, n: nat)
    requires H.ConfigOk(c) && H.AllLegal(c, ops) && BoardWrote(capacity, c.stateSize, structs, run)
    requires Carries(c, AfterBoard(capacity, run).seen, ops, at) && InOrder(c, ops, at) && n <= |ops|
    ensures var published := AfterBoard(capacity, run).seen;
      && Carries(c, published, ops[..n], at[..n])
      && ReportedVersion(c, published, ops[..n], at[..n]) <= ReportedVersion(c, published, ops, at)
  {
    hide D.Version, WritesOf, Tiles, H.Run, H.LastSample;
    var z := Zeros(capacity);
    TakenLater(c, ops, n);
    D.ReadsNeverGoBack(z, z, run);
    LastSampleIsAStruct(c, capacity, structs, run, ops, at);
  }
}
