/**
 zenbedded_rcl/include/zenbedded_rcl/double_buffer.hpp, twice: the class with its sequential
 contract, and the same code as a machine in which every byte store of the writer and every
 byte copied by a reader is a step of its own.
 */
module DoubleBuffer {
  import opened Bytes

  // ---- the class ---------------------------------------------------------------------------

  class DoubleByteBuffer {
    const buffer0: array<byte>
    const buffer1: array<byte>
    var activeIdx: nat

    ghost predicate Valid() reads this {
      buffer0 != buffer1 && buffer0.Length == buffer1.Length && activeIdx < 2
    }

    function Capacity(): nat { buffer0.Length }

    function Slot(idx: nat): array<byte> { if idx == 0 then buffer0 else buffer1 }

    ghost function Active(): seq<byte>
      reads this, buffer0, buffer1
    {
      Slot(activeIdx)[..]
    }

    ghost function Inactive(): seq<byte>
      requires Valid()
      reads this, buffer0, buffer1
    {
      Slot(1 - activeIdx)[..]
    }

    constructor (capacity: nat)
      ensures Valid() && Capacity() == capacity && fresh(buffer0) && fresh(buffer1)
      ensures activeIdx == 0 && Active() == Zeros(capacity) && Inactive() == Zeros(capacity)
    {
      buffer0 := new byte[capacity](_ => 0);
      buffer1 := new byte[capacity](_ => 0);
      activeIdx := 0;
    }

    method Reset()
      requires Valid()
      modifies this, buffer0, buffer1
      ensures Valid() && activeIdx == 0
      ensures Active() == Zeros(Capacity()) && Inactive() == Zeros(Capacity())
    {
      activeIdx := 0;
      forall i | 0 <= i < buffer0.Length { buffer0[i] := 0; }
      forall i | 0 <= i < buffer1.Length { buffer1[i] := 0; }
    }

    method PrepareWrite() returns (writeIdx: nat, dst: array<byte>)
      requires Valid()
      ensures writeIdx == 1 - activeIdx && dst == Slot(writeIdx)
    {
      writeIdx := 1 - activeIdx;
      dst := Slot(writeIdx);
    }

    method CommitWrite(writeIdx: nat)
      requires Valid() && writeIdx < 2
      modifies this
      ensures Valid() && activeIdx == writeIdx
    {
      activeIdx := writeIdx;
    }

    /** The data becomes the front of the visible slot; what was visible becomes the slot that
        the next write goes to. */
    method Write(data: array?<byte>, size: nat) returns (ok: bool)
      requires Valid() && data != buffer0 && data != buffer1 && (data != null ==> size <= data.Length)
      modifies this, buffer0, buffer1
      ensures Valid() && (ok <==> data != null && size <= Capacity())
      ensures ok ==> Inactive() == old(Active())
      ensures ok ==> Active() == Blit(old(Inactive()), 0, data[..size])
      ensures !ok ==> Active() == old(Active()) && Inactive() == old(Inactive())
    {
      if data == null || size > Capacity() { return false; }
      var writeIdx, dst := PrepareWrite();
      Memcpy(dst, 0, data[..size]);
      CommitWrite(writeIdx);
      ok := true;
    }

    method ReadLatest(out: array?<byte>, size: nat) returns (ok: bool)
      requires Valid() && out != buffer0 && out != buffer1 && (out != null ==> size <= out.Length)
      modifies out
      ensures ok <==> out != null && size <= Capacity()
      ensures ok ==> out[..] == Blit(old(out[..]), 0, Active()[..size])
      ensures !ok && out != null ==> out[..] == old(out[..])
    {
      if out == null || size > Capacity() { return false; }
      Memcpy(out, 0, Slot(activeIdx)[..size]);
      ok := true;
    }
  }

  // ---- the machine -------------------------------------------------------------------------

  datatype Store = Store(at: nat, value: byte)

  predicate StoresFit(ss: seq<Store>, size: nat) {
    forall i :: 0 <= i < |ss| ==> ss[i].at < size
  }

  function ApplyStores(s: seq<byte>, ss: seq<Store>): (r: seq<byte>)
    requires StoresFit(ss, |s|)
    ensures |r| == |s|
  {
    if ss == [] then s
    else
      var last := ss[|ss| - 1];
      ApplyStores(s, ss[..|ss| - 1])[last.at := last.value]
  }

  /** The one writer: between prepare_write and commit_write it has done the first `done` stores. */
  datatype Writer = Idle | Filling(idx: nat, stores: seq<Store>, done: nat)

  /** The spinlock.  The writer's critical sections are one assignment each and are steps of
      their own; only a reader keeps the lock across steps. */
  datatype Lock = Free | Held(reader: nat, size: nat, out: seq<byte>)

  datatype Read = Read(reader: nat, version: nat, bytes: seq<byte>)

  /** `writes` and `seen` record what was committed and returned; no step looks at them. */
  datatype State = State(
    slots: seq<seq<byte>>, active: nat, writer: Writer, lock: Lock,
    writes: seq<seq<Store>>, seen: seq<Read>)

  datatype Step =
    | Prepare(stores: seq<Store>)
    | StoreByte
    | Commit
    | Acquire(reader: nat, size: nat)
    | CopyByte
    | Release

  predicate Shaped(s: State) {
    |s.slots| == 2 && |s.slots[0]| == |s.slots[1]| && s.active < 2
  }

  function Cap(s: State): nat requires Shaped(s) { |s.slots[0]| }

  predicate Enabled(s: State, e: Step)
    requires Shaped(s)
  {
    match e
    case Prepare(stores) => s.lock.Free? && s.writer.Idle? && StoresFit(stores, Cap(s))
    case StoreByte => s.writer.Filling? && s.writer.done < |s.writer.stores| && s.writer.idx < 2
                      && s.writer.stores[s.writer.done].at < Cap(s)
    case Commit => s.lock.Free? && s.writer.Filling? && s.writer.done == |s.writer.stores| && s.writer.idx < 2
    case Acquire(reader, size) => s.lock.Free? && size <= Cap(s)
    case CopyByte => s.lock.Held? && |s.lock.out| < s.lock.size <= Cap(s)
    case Release => s.lock.Held? && |s.lock.out| == s.lock.size
  }

  function Do(s: State, e: Step): (t: State)
    requires Shaped(s) && Enabled(s, e)
    ensures Shaped(t) && Cap(t) == Cap(s)
  {
    match e
    case Prepare(stores) => s.(writer := Filling(1 - s.active, stores, 0))
    case StoreByte =>
      var w := s.writer;
      var c := w.stores[w.done];
      s.(slots := s.slots[w.idx := s.slots[w.idx][c.at := c.value]], writer := w.(done := w.done + 1))
    case Commit => s.(active := s.writer.idx, writer := Idle, writes := s.writes + [s.writer.stores])
    case Acquire(reader, size) => s.(lock := Held(reader, size, []))
    case CopyByte => s.(lock := s.lock.(out := s.lock.out + [s.slots[s.active][|s.lock.out|]]))
    case Release =>
      s.(lock := Free, seen := s.seen + [Read(s.lock.reader, |s.writes| + 1, s.lock.out)])
  }

  function Start(front: seq<byte>, back: seq<byte>): (s: State)
    requires |front| == |back|
    ensures Shaped(s)
  {
    State([front, back], 0, Idle, Free, [], [])
  }

  /** Every step of the run is enabled when it is taken. */
  predicate Legal(s: State, run: seq<Step>)
    requires Shaped(s)
    decreases run
  {
    run == [] || (Enabled(s, run[0]) && Legal(Do(s, run[0]), run[1..]))
  }

  function After(s: State, run: seq<Step>): (t: State)
    requires Shaped(s) && Legal(s, run)
    ensures Shaped(t)
    decreases run
  {
    if run == [] then s else After(Do(s, run[0]), run[1..])
  }

  // ---- what a committed write means ----------------------------------------------------------

  predicate WritesFit(writes: seq<seq<Store>>, size: nat) {
    forall i :: 0 <= i < |writes| ==> StoresFit(writes[i], size)
  }

  /** Versions 0 and 1 are the initial back and front slot; version k + 2 is write k over
      version k, the one two commits earlier. */
  function Version(front: seq<byte>, back: seq<byte>, writes: seq<seq<Store>>, k: nat): (v: seq<byte>)
    requires |front| == |back| && k < |writes| + 2 && WritesFit(writes, |front|)
    ensures |v| == |front|
  {
    if k == 0 then back
    else if k == 1 then front
    else ApplyStores(Version(front, back, writes, k - 2), writes[k - 2])
  }

  lemma VersionUnfolds(front: seq<byte>, back: seq<byte>, writes: seq<seq<Store>>, k: nat)
    requires |front| == |back| && k < |writes| && WritesFit(writes, |front|)
    ensures Version(front, back, writes, k + 2) == ApplyStores(Version(front, back, writes, k), writes[k])
  {
  }

  lemma {:induction false} VersionKept(
      front: seq<byte>, back: seq<byte>, writes: seq<seq<Store>>, more: seq<Store>, k: nat)
    requires |front| == |back| && k < |writes| + 2
    requires WritesFit(writes, |front|) && StoresFit(more, |front|)
    ensures WritesFit(writes + [more], |front|)
    ensures Version(front, back, writes + [more], k) == Version(front, back, writes, k)
  {
    if k >= 2 { VersionKept(front, back, writes, more, k - 2); }
  }

  // ---- the invariant -------------------------------------------------------------------------

  ghost predicate WriterInv(front: seq<byte>, back: seq<byte>, s: State)
    requires Shaped(s) && |front| == |back| == Cap(s)
  {
    var n := |s.writes|;
    && WritesFit(s.writes, |front|)
    && s.slots[s.active] == Version(front, back, s.writes, n + 1)
    && (s.writer.Idle? ==> s.slots[1 - s.active] == Version(front, back, s.writes, n))
    && (s.writer.Filling? ==>
          && s.writer.idx == 1 - s.active
          && StoresFit(s.writer.stores, |front|) && s.writer.done <= |s.writer.stores|
          && s.slots[1 - s.active]
             == ApplyStores(Version(front, back, s.writes, n), s.writer.stores[..s.writer.done]))
  }

  ghost predicate ReadersInv(front: seq<byte>, back: seq<byte>, s: State)
    requires Shaped(s) && |front| == |back| == Cap(s) && WritesFit(s.writes, |front|)
  {
    && (s.lock.Held? ==> |s.lock.out| <= s.lock.size <= Cap(s)
                         && s.lock.out == s.slots[s.active][..|s.lock.out|])
    && (forall i :: 0 <= i < |s.seen| ==>
          && 1 <= s.seen[i].version <= |s.writes| + 1
          && s.seen[i].bytes <= Version(front, back, s.writes, s.seen[i].version))
    && (forall i, j :: 0 <= i < j < |s.seen| ==> s.seen[i].version <= s.seen[j].version)
  }

  ghost predicate Inv(front: seq<byte>, back: seq<byte>, s: State)
    requires |front| == |back|
  {
    Shaped(s) && Cap(s) == |front| && WriterInv(front, back, s) && ReadersInv(front, back, s)
  }

  lemma StoreByteStep(front: seq<byte>, back: seq<byte>, s: State)
    requires |front| == |back| && Inv(front, back, s) && Enabled(s, StoreByte)
    ensures WriterInv(front, back, Do(s, StoreByte))
  {
    hide Version, ReadersInv;
    var w := s.writer;
    assert w.stores[..w.done + 1][..w.done] == w.stores[..w.done];
  }

  lemma CommitStep(front: seq<byte>, back: seq<byte>, s: State)
    requires |front| == |back| && Inv(front, back, s) && Enabled(s, Commit)
    ensures WriterInv(front, back, Do(s, Commit))
  {
    hide Version, ReadersInv, ApplyStores;
    var w, n := s.writer, |s.writes|;
    assert w.stores[..w.done] == w.stores;
    VersionKept(front, back, s.writes, w.stores, n);
    VersionKept(front, back, s.writes, w.stores, n + 1);
    assert (s.writes + [w.stores])[n] == w.stores;
    VersionUnfolds(front, back, s.writes + [w.stores], n);
  }

  lemma WriterStep(front: seq<byte>, back: seq<byte>, s: State, e: Step)
    requires |front| == |back| && Inv(front, back, s) && Enabled(s, e)
    ensures WriterInv(front, back, Do(s, e))
  {
    hide Version, ReadersInv;
    match e {
      case Prepare(stores) =>
        assert stores[..0] == [];
      case StoreByte => StoreByteStep(front, back, s);
      case Commit => CommitStep(front, back, s);
      case Acquire(_, _) =>
      case CopyByte =>
      case Release =>
    }
  }

  lemma ReadersStep(front: seq<byte>, back: seq<byte>, s: State, e: Step)
    requires |front| == |back| && Inv(front, back, s) && Enabled(s, e)
    requires WriterInv(front, back, Do(s, e))
    ensures ReadersInv(front, back, Do(s, e))
  {
    match e {
      case Prepare(_) =>
      case StoreByte =>
      case Commit =>
        forall i | 0 <= i < |s.seen|
          ensures s.seen[i].bytes <= Version(front, back, Do(s, e).writes, s.seen[i].version)
        {
          VersionKept(front, back, s.writes, s.writer.stores, s.seen[i].version);
        }
      case Acquire(_, _) =>
      case CopyByte =>
      case Release =>
    }
  }

  lemma {:induction false} InvOverRun(front: seq<byte>, back: seq<byte>, s: State, run: seq<Step>)
    requires |front| == |back| && Inv(front, back, s) && Legal(s, run)
    ensures Inv(front, back, After(s, run))
    decreases run
  {
    if run != [] {
      WriterStep(front, back, s, run[0]);
      ReadersStep(front, back, s, run[0]);
      InvOverRun(front, back, Do(s, run[0]), run[1..]);
    }
  }

  // ---- the results ---------------------------------------------------------------------------

  /** In every interleaving, a read that completes returns the front of the most recently
      committed version, and never a mix with bytes the writer is storing meanwhile. */
  lemma ReadIsLatestCommit(front: seq<byte>, back: seq<byte>, run: seq<Step>)
    requires |front| == |back| && Legal(Start(front, back), run)
    requires Enabled(After(Start(front, back), run), Release)
    ensures var s := After(Start(front, back), run);
      && WritesFit(s.writes, |front|) && s.lock.size <= |front|
      && s.lock.out == Version(front, back, s.writes, |s.writes| + 1)[..s.lock.size]
  {
    InvOverRun(front, back, Start(front, back), run);
  }

  /** All reads of a run, whoever made them, in the order they completed: each shows one
      version in full, and later reads never show an older one. */
  lemma ReadsNeverGoBack(front: seq<byte>, back: seq<byte>, run: seq<Step>)
    requires |front| == |back| && Legal(Start(front, back), run)
    ensures var s := After(Start(front, back), run);
      && WritesFit(s.writes, |front|)
      && (forall i :: 0 <= i < |s.seen| ==>
            1 <= s.seen[i].version < |s.writes| + 2
            && s.seen[i].bytes <= Version(front, back, s.writes, s.seen[i].version))
      && (forall i, j :: 0 <= i < j < |s.seen| ==> s.seen[i].version <= s.seen[j].version)
  {
    InvOverRun(front, back, Start(front, back), run);
  }

  /** A whole-buffer write makes its data the front of the version, whatever was there. */
  lemma WholeWriteShowsItsData(front: seq<byte>, back: seq<byte>, writes: seq<seq<Store>>, k: nat, data: seq<byte>)
    requires |front| == |back| && k < |writes| && WritesFit(writes, |front|)
    requires |data| <= |front| && writes[k] == StoresOf(0, data)
    ensures Version(front, back, writes, k + 2)[..|data|] == data
  {
    hide Version;
    var v := Version(front, back, writes, k);
    VersionUnfolds(front, back, writes, k);
    StoresOfBlit(v, 0, data);
    assert Blit(v, 0, data)[..|data|] == data;
  }

  /** From any state in which the lock is free a read can run to completion, whatever the writer is
      in the middle of. */
  lemma {:induction false} ReadCanComplete(s: State, reader: nat, size: nat) returns (run: seq<Step>)
    requires Shaped(s) && s.lock.Free? && size <= Cap(s)
    ensures Legal(s, run) && After(s, run).lock == Held(reader, size, s.slots[s.active][..size])
    ensures Enabled(After(s, run), Release)
  {
    var t := Do(s, Acquire(reader, size));
    var copies := CopyingCanComplete(t);
    run := [Acquire(reader, size)] + copies;
    assert run[1..] == copies;
  }

  lemma {:induction false} CopyingCanComplete(s: State) returns (run: seq<Step>)
    requires Shaped(s) && s.lock.Held? && |s.lock.out| <= s.lock.size <= Cap(s)
    requires s.lock.out == s.slots[s.active][..|s.lock.out|]
    ensures Legal(s, run)
    ensures After(s, run).lock == Held(s.lock.reader, s.lock.size, s.slots[s.active][..s.lock.size])
    decreases s.lock.size - |s.lock.out|
  {
    if |s.lock.out| == s.lock.size {
      run := [];
    } else {
      var rest := CopyingCanComplete(Do(s, CopyByte));
      run := [CopyByte] + rest;
      assert run[1..] == rest;
    }
  }

  // ---- memcpy as byte stores -----------------------------------------------------------------

  function StoresOf(at: nat, data: seq<byte>): (ss: seq<Store>)
    ensures |ss| == |data|
    ensures forall i :: 0 <= i < |data| ==> ss[i] == Store(at + i, data[i])
  {
    seq<Store>(|data|, (i: nat) requires i < |data| => Store(at + i, data[i]))
  }

  lemma {:induction false} StoresOfBlit(s: seq<byte>, at: nat, data: seq<byte>)
    requires at + |data| <= |s|
    ensures StoresFit(StoresOf(at, data), |s|)
    ensures ApplyStores(s, StoresOf(at, data)) == Blit(s, at, data)
  {
    if data == [] {
      assert StoresOf(at, data) == [];
    } else {
      var init := data[..|data| - 1];
      assert StoresOf(at, data)[..|data| - 1] == StoresOf(at, init);
      StoresOfBlit(s, at, init);
    }
  }

  function ByteStores(cs: seq<Copy>): seq<Store> {
    if cs == [] then []
    else ByteStores(cs[..|cs| - 1]) + StoresOf(cs[|cs| - 1].at, cs[|cs| - 1].src)
  }

  lemma {:induction false} StoresAppended(s: seq<byte>, a: seq<Store>, b: seq<Store>)
    requires StoresFit(a, |s|) && StoresFit(b, |s|)
    ensures StoresFit(a + b, |s|)
    ensures ApplyStores(s, a + b) == ApplyStores(ApplyStores(s, a), b)
  {
    if b == [] {
      assert a + b == a;
    } else {
      assert (a + b)[..|a + b| - 1] == a + b[..|b| - 1];
      StoresAppended(s, a, b[..|b| - 1]);
    }
  }

  /** Storing byte by byte amounts to the memcpys the bytes come from. */
  lemma {:induction false} ByteStoresApply(s: seq<byte>, cs: seq<Copy>)
    requires CopiesFit(cs, |s|)
    ensures StoresFit(ByteStores(cs), |s|)
    ensures ApplyStores(s, ByteStores(cs)) == ApplyCopies(s, cs)
  {
    if cs != [] {
      var init, last := cs[..|cs| - 1], cs[|cs| - 1];
      ByteStoresApply(s, init);
      StoresOfBlit(ApplyCopies(s, init), last.at, last.src);
      StoresAppended(s, ByteStores(init), StoresOf(last.at, last.src));
    }
  }
}
