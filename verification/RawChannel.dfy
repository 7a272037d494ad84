/**
 The Tier 2 codec of zenbedded_rcl/include/zenbedded_rcl/codecs.hpp, which copies a packed struct as
 it is, and what a client that uses it publishes and receives.
 */
module RawChannel {
  import opened Bytes
  import opened CommandChannel
  import opened DoubleBuffer
  import opened FieldAccess
  import opened Schema

  /** RawCodec::write into a slot. */
  method Write(value: seq<byte>, buf: array<byte>)
    requires |value| <= buf.Length
    modifies buf
    ensures buf[..] == Blit(old(buf[..]), 0, value)
  {
    Memcpy(buf, 0, value);
  }

  /** What a receiver of a struct of `sizeof_` bytes makes of the bytes that arrived. */
  function Decoded(sizeof_: nat, received: seq<byte>): Option<seq<byte>> {
    if |received| < sizeof_ then None else Some(received[..sizeof_])
  }

  /** RawCodec::read */
  method Read(sizeof_: nat, buf: array<byte>, size: nat) returns (value: Option<seq<byte>>)
    requires size <= buf.Length
    ensures value == Decoded(sizeof_, buf[..size])
  {
    if size < sizeof_ { return None; }
    assert buf[..size][..sizeof_] == buf[..sizeof_];
    value := Some(buf[..sizeof_]);
  }

  /** Reading back what was written into a slot returns the struct, whatever the slot held before and
      holds behind it, if and only if enough bytes of it arrive. */
  lemma ReadsBackWhatWasWritten(value: seq<byte>, slot: seq<byte>, size: nat)
    requires |value| <= |slot| && size <= |slot|
    ensures Decoded(|value|, Blit(slot, 0, value)[..size]) == Some(value) <==> |value| <= size
    ensures size < |value| ==> Decoded(|value|, Blit(slot, 0, value)[..size]) == None
  {
    var b := Blit(slot, 0, value);
    assert b == value + slot[|value|..];
    if |value| <= size { assert b[..size][..|value|] == value; }
  }

  /** Whatever the control loop holds is read as one whole struct that was sent. */
  lemma LoopHoldsASentStruct(s: Channel, size: nat, capacity: nat)
    requires size <= capacity && Reachable(s, size, capacity) && s.held.Some?
    ensures 1 <= s.held.value.0 <= |s.payloads|
    ensures Decoded(size, s.held.value.1) == Some(s.payloads[s.held.value.0 - 1])
  {
    ReachableInv(s, size, capacity);
    var p := s.payloads[s.held.value.0 - 1];
    assert |p| == size && p[..size] == p;
  }

  /** From the host's held values to the firmware: when every payload is the packed struct of some values,
      the struct the loop reads gives back, field by field, the values of one of them, converted. */
  lemma LoopReadsTheHostsValues(
      s: Channel, size: nat, capacity: nat, casts: Casts, fs: seq<FlatField>, sent: seq<seq<Double>>, i: nat)
    requires size <= capacity && Reachable(s, size, capacity) && s.held.Some?
    requires Tiles(fs, size) && i < |fs| && |sent| == |s.payloads|
    requires forall k :: 0 <= k < |sent| ==>
               ValuesFit(casts, fs, sent[k]) && s.payloads[k] == Packed(casts, fs, sent[k])
    ensures 1 <= s.held.value.0 <= |sent|
    ensures var struct_, vs := Decoded(size, s.held.value.1), sent[s.held.value.0 - 1];
      && struct_.Some? && |struct_.value| == size && ValuesFit(casts, fs, vs)
      && ReadField(casts, fs, struct_.value, i) == Converted(casts, fs[i].type_, vs[i])
  {
    LoopHoldsASentStruct(s, size, capacity);
    hide Packed, ReadField, Converted, Tiles, Castable, Decoded, Reachable;
    PackedReadsBack(casts, fs, sent[s.held.value.0 - 1], size, i);
  }

  /** The committed writes are those of `write_state` with these structs. */
  ghost predicate WritesOf(structs: seq<seq<byte>>, size: nat, writes: seq<seq<Store>>) {
    && |writes| == |structs|
    && forall i :: 0 <= i < |structs| ==> |structs[i]| == size && writes[i] == StoresOf(0, structs[i])
  }

  /** In every interleaving with any readers, what is published is the struct of the last committed
      `write_state`, byte for byte, and zeros before the first: unlike a Tier 1 state it takes nothing
      from the slot it was written over. */
  lemma PublishedStructIsTheLastWritten(capacity: nat, size: nat, structs: seq<seq<byte>>, run: seq<Step>, s: State)
    requires size <= capacity && Legal(Start(Zeros(capacity), Zeros(capacity)), run)
    requires s == After(Start(Zeros(capacity), Zeros(capacity)), run) && WritesOf(structs, size, s.writes)
    requires s.lock.Held? && |s.lock.out| == s.lock.size == size
    ensures s.lock.out == if structs == [] then Zeros(size) else structs[|structs| - 1]
  {
    hide Version;
    var z, n := Zeros(capacity), |structs|;
    ReadIsLatestCommit(z, z, run);
    if n > 0 {
      WholeWriteShowsItsData(z, z, s.writes, n - 1, structs[n - 1]);
    } else {
      FirstVersion(z, s.writes);
      assert z[..size] == Zeros(size);
    }
  }

  lemma FirstVersion(z: seq<byte>, writes: seq<seq<Store>>)
    requires WritesFit(writes, |z|)
    ensures Version(z, z, writes, 1) == z
  {}
}
