/**
 Reading and writing single fields of a packed buffer, as the accessors of
 zenbedded_hardware_interface/src/interface_schema.cpp do. The host is little-endian; a double is
 its eight bytes and the conversions of the floating-point unit are parameters.
 */
module FieldAccess {
  import opened Bytes
  import opened Schema
  import Cdr

  type Double = Cdr.Double
  type Single = s: seq<byte> | |s| == 4 witness [0, 0, 0, 0]

  /** static_cast between double and the other field types: to and from float, towards zero to an
      integer (None for a NaN or an infinity), and from an integer. */
  datatype Casts = Casts(
    narrow: Double -> Single, widen: Single -> Double,
    truncate: Double -> Option<int>, fromInt: int -> Double)

  const ZERO: Double := Cdr.ZERO

  /** std::isnan on the IEEE 754 pattern: all exponent bits set and a fraction that is not zero. */
  predicate IsNaN(d: Double) {
    d[7] % 0x80 == 0x7f && d[6] / 0x10 == 0xf && (d[6] % 0x10 != 0 || exists i :: 0 <= i < 6 && d[i] != 0)
  }

  const FRACTION := 0x10_0000_0000_0000

  /** In numbers: of the 64 bits the fraction has the lowest 52 and the exponent the eleven above. */
  lemma NaNPattern(d: Double)
    ensures IsNaN(d) <==> Number8(d) / FRACTION % 0x800 == 0x7ff && Number8(d) % FRACTION != 0
  {
    var low := Number4(d[..4]) + 0x1_0000_0000 * (d[4] as int + 0x100 * d[5] as int);
    assert Number4(d[4..]) == d[4] as int + 0x100 * d[5] as int + 0x1_0000 * d[6] as int + 0x100_0000 * d[7] as int;
    NoneSet(d);
    ExponentAndFraction(low, d[6], d[7]);
  }

  lemma NoneSet(d: Double)
    ensures var low := Number4(d[..4]) + 0x1_0000_0000 * (d[4] as int + 0x100 * d[5] as int);
            0 <= low < 0x1_0000_0000_0000 && (low == 0 <==> forall i :: 0 <= i < 6 ==> d[i] == 0)
  {}

  lemma ExponentAndFraction(low: int, b6: int, b7: int)
    requires 0 <= low < 0x1_0000_0000_0000 && 0 <= b6 < 0x100 && 0 <= b7 < 0x100
    ensures var n := low + 0x1_0000_0000_0000 * (b6 + 0x100 * b7);
            && n / FRACTION % 0x800 == b6 / 0x10 + 0x10 * (b7 % 0x80)
            && (n % FRACTION == 0 <==> low == 0 && b6 % 0x10 == 0)
  {
    var n, rest, top := low + 0x1_0000_0000_0000 * (b6 + 0x100 * b7), low + 0x1_0000_0000_0000 * (b6 % 0x10),
                        b6 / 0x10 + 0x10 * b7;
    assert n == rest + FRACTION * top && 0 <= rest < FRACTION;
    assert n / FRACTION == top && n % FRACTION == rest;
    assert top == 0x800 * (b7 / 0x80) + (0x10 * (b7 % 0x80) + b6 / 0x10);
  }

  predicate InRange(t: FieldType, n: int) {
    match t
    case Int32 => -0x8000_0000 <= n < 0x8000_0000
    case Uint64 => 0 <= n < 0x1_0000_0000_0000_0000
    case Int16 => -0x8000 <= n < 0x8000
    case Uint8 => 0 <= n < 0x100
    case _ => false
  }

  predicate IsFloat(t: FieldType) { t == Float32 || t == Float64 }

  /** The cast to the field's type is defined: C++ leaves an out-of-range one undefined. */
  predicate Castable(c: Casts, t: FieldType, v: Double) {
    IsFloat(t) || (c.truncate(v).Some? && InRange(t, c.truncate(v).value))
  }

  lemma Pow256Values()
    ensures Pow256(1) == 0x100 && Pow256(2) == 0x1_0000
    ensures Pow256(4) == 0x1_0000_0000 && Pow256(8) == 0x1_0000_0000_0000_0000
  {
    assert Pow256(3) == 0x100_0000;
    assert Pow256(5) == 0x100_0000_0000;
    assert Pow256(6) == 0x1_0000_0000_0000;
    assert Pow256(7) == 0x100_0000_0000_0000;
  }

  /** Two's complement in k bytes. */
  function IntBytes(n: int, k: nat): (b: seq<byte>)
    requires n + Pow256(k) >= 0
    ensures |b| == k
  {
    LeBytes(if n < 0 then n + Pow256(k) else n, k)
  }

  function BytesInt(b: seq<byte>, signed: bool): int {
    var n := FromLe(b);
    if signed && 2 * n >= Pow256(|b|) then n - Pow256(|b|) else n
  }

  predicate IsSigned(t: FieldType) { t == Int32 || t == Int16 }

  lemma IntRoundTrip(t: FieldType, n: int)
    requires InRange(t, n)
    ensures n + Pow256(ByteSize(t)) >= 0
    ensures BytesInt(IntBytes(n, ByteSize(t)), IsSigned(t)) == n
  {
    Pow256Values();
    var k := ByteSize(t);
    LeRoundTrip(if n < 0 then n + Pow256(k) else n, k);
  }

  /** What write_command_field copies into the buffer. */
  function FieldBytes(c: Casts, t: FieldType, v: Double): (b: seq<byte>)
    requires Castable(c, t, v)
    ensures |b| == ByteSize(t)
  {
    match t
    case Float32 => c.narrow(v)
    case Float64 => v
    case _ =>
      IntRoundTrip(t, c.truncate(v).value);
      IntBytes(c.truncate(v).value, ByteSize(t))
  }

  /** What the readers make of a field's bytes. */
  function FromField(c: Casts, t: FieldType, b: seq<byte>): Double
    requires |b| == ByteSize(t)
  {
    match t
    case Float32 => c.widen(b)
    case Float64 => b
    case _ => c.fromInt(BytesInt(b, IsSigned(t)))
  }

  /** The value converted to the field's type and back. */
  function Converted(c: Casts, t: FieldType, v: Double): Double
    requires Castable(c, t, v)
  {
    match t
    case Float32 => c.widen(c.narrow(v))
    case Float64 => v
    case _ => c.fromInt(c.truncate(v).value)
  }

  lemma FieldRoundTrip(c: Casts, t: FieldType, v: Double)
    requires Castable(c, t, v)
    ensures FromField(c, t, FieldBytes(c, t, v)) == Converted(c, t, v)
  {
    if !IsFloat(t) { IntRoundTrip(t, c.truncate(v).value); }
  }

  /** The number k bytes stand for, least significant first, as an integer of the field's type. */
  function IntegerIn(t: FieldType, b: seq<byte>): int
    requires |b| == ByteSize(t)
  {
    match t
    case Int32 => if b[3] >= 0x80 then Number4(b) - 0x1_0000_0000 else Number4(b)
    case Uint64 => Number8(b)
    case Int16 => if b[1] >= 0x80 then Number2(b) - 0x1_0000 else Number2(b)
    case Uint8 => b[0]
    case _ => 0
  }

  lemma BytesAreNumbers(t: FieldType, b: seq<byte>)
    requires |b| == ByteSize(t) && !IsFloat(t)
    ensures BytesInt(b, IsSigned(t)) == IntegerIn(t, b)
  {
    hide FromLe, Pow256;
    Pow256Values();
    match t {
      case Int32 => FourBytes(b);
      case Uint64 => EightBytes(b);
      case Int16 => TwoBytes(b);
      case Uint8 => OneByte(b);
      case _ =>
    }
  }

  /** Every pattern of bits is a value of the type. */
  lemma NumbersAreInRange(t: FieldType, b: seq<byte>)
    requires |b| == ByteSize(t) && !IsFloat(t)
    ensures InRange(t, IntegerIn(t, b))
  {}

  lemma OneByte(b: seq<byte>)
    requires |b| == 1
    ensures FromLe(b) == b[0]
  {
    assert FromLe(b[1..]) == 0;
  }

  /** The integer fields of a packed struct are little-endian and in two's complement: what is written is
      the truncated value, and what is read is the number the bytes stand for. */
  lemma IntegerFieldsAreLittleEndian(c: Casts, t: FieldType, v: Double, b: seq<byte>)
    requires !IsFloat(t) && |b| == ByteSize(t)
    ensures FromField(c, t, b) == c.fromInt(IntegerIn(t, b)) && InRange(t, IntegerIn(t, b))
    ensures Castable(c, t, v) ==> Some(IntegerIn(t, FieldBytes(c, t, v))) == c.truncate(v)
  {
    NumbersAreInRange(t, b);
    hide IntegerIn, IntBytes, BytesInt;
    BytesAreNumbers(t, b);
    if Castable(c, t, v) {
      IntRoundTrip(t, c.truncate(v).value);
      BytesAreNumbers(t, FieldBytes(c, t, v));
    }
  }

  // ---- one access ----------------------------------------------------------------------------

  function Slot(fs: seq<FlatField>, buf: seq<byte>, i: nat): (b: seq<byte>)
    requires Tiles(fs, |buf|) && i < |fs|
    ensures |b| == ByteSize(fs[i].type_)
  {
    FieldFits(fs, |buf|, i);
    buf[fs[i].byteOffset..End(fs[i])]
  }

  /** read_state_field and read_command_field: an index that is out of range reads as 0.0. */
  function ReadField(c: Casts, fs: seq<FlatField>, buf: seq<byte>, i: nat): Double
    requires Tiles(fs, |buf|)
  {
    if i >= |fs| then ZERO else FromField(c, fs[i].type_, Slot(fs, buf, i))
  }

  predicate Writable(c: Casts, fs: seq<FlatField>, i: nat, v: Double) {
    i < |fs| ==> Castable(c, fs[i].type_, v)
  }

  function Written(c: Casts, fs: seq<FlatField>, buf: seq<byte>, i: nat, v: Double): (r: seq<byte>)
    requires Tiles(fs, |buf|) && Writable(c, fs, i, v)
    ensures |r| == |buf|
  {
    if i >= |fs| then buf
    else
      FieldFits(fs, |buf|, i);
      Blit(buf, fs[i].byteOffset, FieldBytes(c, fs[i].type_, v))
  }

  /** write_command_field: an index that is out of range changes nothing. */
  method WriteCommandField(c: Casts, fs: seq<FlatField>, buffer: array<byte>, i: nat, v: Double)
    requires Tiles(fs, buffer.Length) && Writable(c, fs, i, v)
    modifies buffer
    ensures buffer[..] == Written(c, fs, old(buffer[..]), i, v)
  {
    if i >= |fs| { return; }
    FieldFits(fs, buffer.Length, i);
    var f := fs[i];
    Memcpy(buffer, f.byteOffset, FieldBytes(c, f.type_, v));
  }

  lemma BlitAt(s: seq<byte>, at: nat, x: seq<byte>)
    requires at + |x| <= |s|
    ensures Blit(s, at, x)[at..at + |x|] == x
  {}

  lemma BlitElsewhere(s: seq<byte>, at: nat, x: seq<byte>, lo: nat, hi: nat)
    requires at + |x| <= |s| && lo <= hi <= |s| && (hi <= at || at + |x| <= lo)
    ensures Blit(s, at, x)[lo..hi] == s[lo..hi]
  {}

  lemma SlotAfterWrite(c: Casts, fs: seq<FlatField>, buf: seq<byte>, i: nat, v: Double, j: nat)
    requires Tiles(fs, |buf|) && Writable(c, fs, i, v) && j < |fs|
    ensures Slot(fs, Written(c, fs, buf, i, v), j)
         == if j == i then FieldBytes(c, fs[i].type_, v) else Slot(fs, buf, j)
  {
    hide FieldBytes, Castable;
    FieldFits(fs, |buf|, j);
    if i < |fs| {
      FieldFits(fs, |buf|, i);
      var x := FieldBytes(c, fs[i].type_, v);
      if i == j {
        BlitAt(buf, fs[i].byteOffset, x);
      } else if i < j {
        LaterFieldsStartLater(fs, |buf|, i, j);
        BlitElsewhere(buf, fs[i].byteOffset, x, fs[j].byteOffset, End(fs[j]));
      } else {
        LaterFieldsStartLater(fs, |buf|, j, i);
        BlitElsewhere(buf, fs[i].byteOffset, x, fs[j].byteOffset, End(fs[j]));
      }
    }
  }

  /** Writing one field gives it the converted value and leaves every other reading as it was. */
  lemma WriteThenRead(c: Casts, fs: seq<FlatField>, buf: seq<byte>, i: nat, v: Double, j: nat)
    requires Tiles(fs, |buf|) && Writable(c, fs, i, v)
    ensures ReadField(c, fs, Written(c, fs, buf, i, v), j)
         == if j == i < |fs| then Converted(c, fs[i].type_, v) else ReadField(c, fs, buf, j)
  {
    if j < |fs| {
      SlotAfterWrite(c, fs, buf, i, v, j);
      if j == i { FieldRoundTrip(c, fs[i].type_, v); }
    }
  }

  const EXACT := 0x20_0000_0000_0000

  /** IEEE 754: integers up to 2^53 in magnitude convert to a double that truncates to them again. */
  ghost predicate ConvertsExactly(c: Casts) {
    forall n: int :: -EXACT <= n <= EXACT ==> c.truncate(c.fromInt(n)) == Some(n)
  }

  /** An integer of the field's range and at most 2^53 in magnitude comes back from an integer field as the
      same double, and every double comes back from a float64 field. */
  lemma ExactValuesSurvive(c: Casts, fs: seq<FlatField>, buf: seq<byte>, i: nat, v: Double, n: int)
    requires Tiles(fs, |buf|) && i < |fs| && ConvertsExactly(c)
    requires fs[i].type_ == Float64 || (InRange(fs[i].type_, n) && -EXACT <= n <= EXACT && v == c.fromInt(n))
    ensures Writable(c, fs, i, v) && ReadField(c, fs, Written(c, fs, buf, i, v), i) == v
  {
    if fs[i].type_ != Float64 { assert c.truncate(c.fromInt(n)) == Some(n); }
    WriteThenRead(c, fs, buf, i, v, i);
  }

  // ---- any run of writes -----------------------------------------------------------------------

  datatype FieldWrite = FieldWrite(index: nat, value: Double)

  predicate AllWritable(c: Casts, fs: seq<FlatField>, ws: seq<FieldWrite>) {
    forall k :: 0 <= k < |ws| ==> Writable(c, fs, ws[k].index, ws[k].value)
  }

  function AfterWrites(c: Casts, fs: seq<FlatField>, buf: seq<byte>, ws: seq<FieldWrite>): (r: seq<byte>)
    requires Tiles(fs, |buf|) && AllWritable(c, fs, ws)
    ensures |r| == |buf|
  {
    if ws == [] then buf
    else
      var w := ws[|ws| - 1];
      Written(c, fs, AfterWrites(c, fs, buf, ws[..|ws| - 1]), w.index, w.value)
  }

  /** The value the last write to field j carried. */
  function LastValue(ws: seq<FieldWrite>, j: nat): (v: Option<Double>)
    ensures v.Some? ==> FieldWrite(j, v.value) in ws
  {
    if ws == [] then None
    else if ws[|ws| - 1].index == j then Some(ws[|ws| - 1].value)
    else LastValue(ws[..|ws| - 1], j)
  }

  lemma {:induction false} SlotAfterWrites(c: Casts, fs: seq<FlatField>, buf: seq<byte>, ws: seq<FieldWrite>, j: nat)
    requires Tiles(fs, |buf|) && AllWritable(c, fs, ws) && j < |fs|
    ensures Slot(fs, AfterWrites(c, fs, buf, ws), j)
         == match LastValue(ws, j)
            case Some(v) => FieldBytes(c, fs[j].type_, v)
            case None => Slot(fs, buf, j)
  {
    hide FieldBytes, Castable, Slot, Written;
    if ws != [] {
      var w, init := ws[|ws| - 1], ws[..|ws| - 1];
      SlotAfterWrites(c, fs, buf, init, j);
      SlotAfterWrite(c, fs, AfterWrites(c, fs, buf, init), w.index, w.value, j);
    }
  }

  /** After any run of writes, in any order and with repetitions, a field reads as the last value
      written to it, converted to its type, and as before when nothing was written to it. */
  lemma ReadsLastWrite(c: Casts, fs: seq<FlatField>, buf: seq<byte>, ws: seq<FieldWrite>, j: nat)
    requires Tiles(fs, |buf|) && AllWritable(c, fs, ws) && j < |fs|
    ensures ReadField(c, fs, AfterWrites(c, fs, buf, ws), j)
         == match LastValue(ws, j)
            case Some(v) => Converted(c, fs[j].type_, v)
            case None => ReadField(c, fs, buf, j)
  {
    hide FieldBytes, Castable, Converted, FromField, Slot;
    SlotAfterWrites(c, fs, buf, ws, j);
    var v := LastValue(ws, j);
    if v.Some? { FieldRoundTrip(c, fs[j].type_, v.value); }
  }

  // ---- the whole buffer ------------------------------------------------------------------------

  predicate ValuesFit(c: Casts, fs: seq<FlatField>, vs: seq<Double>) {
    |vs| == |fs| && forall i :: 0 <= i < |fs| ==> Castable(c, fs[i].type_, vs[i])
  }

  /** The packed struct that holds the values. */
  function Packed(c: Casts, fs: seq<FlatField>, vs: seq<Double>): seq<byte>
    requires ValuesFit(c, fs, vs)
  {
    if fs == [] then []
    else
      var n := |fs| - 1;
      Packed(c, fs[..n], vs[..n]) + FieldBytes(c, fs[n].type_, vs[n])
  }

  predicate Holds(c: Casts, fs: seq<FlatField>, buf: seq<byte>, vs: seq<Double>, n: nat)
    requires Tiles(fs, |buf|) && ValuesFit(c, fs, vs) && n <= |fs|
  {
    forall i :: 0 <= i < n ==> Slot(fs, buf, i) == FieldBytes(c, fs[i].type_, vs[i])
  }

  lemma {:induction false} SlotsMakeThePrefix(c: Casts, fs: seq<FlatField>, buf: seq<byte>, vs: seq<Double>, n: nat)
    requires Tiles(fs, |buf|) && ValuesFit(c, fs, vs) && 0 < n <= |fs| && Holds(c, fs, buf, vs, n)
    ensures End(fs[n - 1]) <= |buf| && Packed(c, fs[..n], vs[..n]) == buf[..End(fs[n - 1])]
  {
    hide FieldBytes, Castable;
    var k := n - 1;
    FieldFits(fs, |buf|, k);
    assert fs[..n][..k] == fs[..k] && vs[..n][..k] == vs[..k];
    assert Slot(fs, buf, k) == FieldBytes(c, fs[k].type_, vs[k]);
    if k > 0 {
      SlotsMakeThePrefix(c, fs, buf, vs, k);
      assert End(fs[k - 1]) == fs[k].byteOffset;
    } else {
      assert Packed(c, fs[..0], vs[..0]) == [];
    }
  }

  /** A buffer whose every slot holds the value's bytes is the packed struct: no byte is left over. */
  lemma SlotsMakeTheBuffer(c: Casts, fs: seq<FlatField>, buf: seq<byte>, vs: seq<Double>)
    requires Tiles(fs, |buf|) && ValuesFit(c, fs, vs) && Holds(c, fs, buf, vs, |fs|)
    ensures buf == Packed(c, fs, vs)
  {
    if fs != [] {
      SlotsMakeThePrefix(c, fs, buf, vs, |fs|);
      assert fs[..|fs|] == fs && vs[..|fs|] == vs;
    }
  }

  /** Once every field has been written, in any order, the buffer is the packed struct of the last
      values, whatever it held before. */
  lemma WritingEveryField(c: Casts, fs: seq<FlatField>, buf: seq<byte>, ws: seq<FieldWrite>, vs: seq<Double>)
    requires Tiles(fs, |buf|) && AllWritable(c, fs, ws) && |vs| == |fs|
    requires forall j :: 0 <= j < |fs| ==> LastValue(ws, j) == Some(vs[j])
    ensures ValuesFit(c, fs, vs)
    ensures AfterWrites(c, fs, buf, ws) == Packed(c, fs, vs)
  {
    hide FieldBytes, Slot, AfterWrites, Packed, Tiles;
    forall j | 0 <= j < |fs| ensures Castable(c, fs[j].type_, vs[j]) {
      assert LastValue(ws, j) == Some(vs[j]);
      assert FieldWrite(j, vs[j]) in ws;
    }
    forall j | 0 <= j < |fs|
      ensures Slot(fs, AfterWrites(c, fs, buf, ws), j) == FieldBytes(c, fs[j].type_, vs[j])
    {
      SlotAfterWrites(c, fs, buf, ws, j);
    }
    SlotsMakeTheBuffer(c, fs, AfterWrites(c, fs, buf, ws), vs);
  }

  lemma {:induction false} PackedLength(casts: Casts, fs: seq<FlatField>, vs: seq<Double>, size: nat)
    requires ValuesFit(casts, fs, vs) && Tiles(fs, size)
    ensures |Packed(casts, fs, vs)| == size
  {
    hide FieldBytes, Castable;
    if fs != [] {
      var n := |fs| - 1;
      LastFieldEndsThere(fs, size);
      PackedLength(casts, fs[..n], vs[..n], fs[n].byteOffset);
    }
  }

  lemma {:induction false} PackedSlot(casts: Casts, fs: seq<FlatField>, vs: seq<Double>, size: nat, i: nat)
    requires ValuesFit(casts, fs, vs) && Tiles(fs, size) && i < |fs|
    ensures |Packed(casts, fs, vs)| == size && End(fs[i]) <= size
    ensures Packed(casts, fs, vs)[fs[i].byteOffset..End(fs[i])] == FieldBytes(casts, fs[i].type_, vs[i])
  {
    hide FieldBytes, Castable;
    PackedLength(casts, fs, vs, size);
    FieldFits(fs, size, i);
    var n := |fs| - 1;
    var front := fs[n].byteOffset;
    LastFieldEndsThere(fs, size);
    PackedLength(casts, fs[..n], vs[..n], front);
    var p := Packed(casts, fs[..n], vs[..n]);
    if i < n {
      PackedSlot(casts, fs[..n], vs[..n], front, i);
      SliceOfFront(p, FieldBytes(casts, fs[n].type_, vs[n]), fs[i].byteOffset, End(fs[i]));
    }
  }

  lemma SliceOfFront(a: seq<byte>, b: seq<byte>, lo: nat, hi: nat)
    requires lo <= hi <= |a|
    ensures (a + b)[lo..hi] == a[lo..hi]
  {}

  lemma LastFieldEndsThere(fs: seq<FlatField>, size: nat)
    requires Tiles(fs, size) && fs != []
    ensures Tiles(fs[..|fs| - 1], fs[|fs| - 1].byteOffset) && End(fs[|fs| - 1]) == size
  {}

  /** The packed struct read back field by field. */
  lemma PackedReadsBack(c: Casts, fs: seq<FlatField>, vs: seq<Double>, size: nat, i: nat)
    requires ValuesFit(c, fs, vs) && Tiles(fs, size) && i < |fs|
    ensures |Packed(c, fs, vs)| == size
    ensures ReadField(c, fs, Packed(c, fs, vs), i) == Converted(c, fs[i].type_, vs[i])
  {
    PackedSlot(c, fs, vs, size, i);
    FieldRoundTrip(c, fs[i].type_, vs[i]);
  }
}
