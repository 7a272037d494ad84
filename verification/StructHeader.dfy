/**
 The C header of the packed structs, as the C++ library writes it
 (zenbedded_hardware_interface/src/interface_schema.cpp) and as the firmware build generates it
 (zenbedded_transport/tools/generate_tier2_payload.py).
 */
module StructHeader {
  import opened Bytes
  import opened KeyExpr
  import opened Schema

  // ---- the two type tables -------------------------------------------------------------------

  datatype CType = CType(name: string, size: nat)

  const TYPE_MAP: map<string, CType> := map[
    "float32" := CType("float", 4),
    "float64" := CType("double", 8),
    "double" := CType("double", 8),
    "int32" := CType("int32_t", 4),
    "uint64" := CType("uint64_t", 8),
    "int16" := CType("int16_t", 2),
    "uint8" := CType("uint8_t", 1)
  ]

  /** field_type_to_c_type */
  function CName(t: FieldType): string {
    match t
    case Float32 => "float"
    case Float64 => "double"
    case Int32 => "int32_t"
    case Uint64 => "uint64_t"
    case Int16 => "int16_t"
    case Uint8 => "uint8_t"
  }

  /** The C compiler's sizeof for the types either side may print. */
  function SizeOf(ctype: string): nat {
    if ctype == "float" then 4
    else if ctype == "double" then 8
    else if ctype == "int32_t" then 4
    else if ctype == "uint64_t" then 8
    else if ctype == "int16_t" then 2
    else if ctype == "uint8_t" then 1
    else 0
  }

  /** Both tables know the same type names and give each the same C type, whose sizeof is the size
      both of them count. */
  lemma TypeTablesAgree(s: string)
    ensures s in TYPE_MAP <==> ParseFieldType(s).Some?
    ensures ParseFieldType(s).Some? ==>
              var t := ParseFieldType(s).value;
              TYPE_MAP[s] == CType(CName(t), ByteSize(t)) && SizeOf(CName(t)) == ByteSize(t)
  {
    if ParseFieldType(s).Some? {
      match ParseFieldType(s).value
      case Float32 => assert s == "float32";
      case Float64 => assert s == "float64" || s == "double";
      case Int32 => assert s == "int32";
      case Uint64 => assert s == "uint64";
      case Int16 => assert s == "int16";
      case Uint8 => assert s == "uint8";
    }
  }

  // ---- the members of a packed struct --------------------------------------------------------

  datatype Member = Member(ctype: string, name: string)

  function MemberLine(m: Member): string { "  " + m.ctype + " " + m.name + ";" }

  function MemberOf(e: Entry): Member
    requires ParseFieldType(e.typeName).Some?
  {
    Member(CName(ParseFieldType(e.typeName).value), e.component + "_" + e.field)
  }

  function Members(es: seq<Entry>): (ms: seq<Member>)
    requires AllKnown(es)
    ensures |ms| == |es|
  {
    seq<Member>(|es|, (i: nat) requires i < |es| && AllKnown(es) => MemberOf(es[i]))
  }

  function Lines(ms: seq<Member>): (ls: seq<string>)
    ensures |ls| == |ms|
  {
    seq<string>(|ms|, (i: nat) requires i < |ms| => MemberLine(ms[i]))
  }

  /** sizeof a packed struct; a member starts where the members before it end. */
  function PackedSize(ms: seq<Member>): nat {
    if ms == [] then 0 else PackedSize(ms[..|ms| - 1]) + SizeOf(ms[|ms| - 1].ctype)
  }

  lemma {:induction false} SizesAgree(es: seq<Entry>)
    requires AllKnown(es)
    ensures TotalSize(es) == PackedSize(Members(es))
  {
    hide ParseFieldType, ByteSize, CName, SizeOf, TYPE_MAP;
    if es != [] {
      var n := |es| - 1;
      assert Members(es)[..n] == Members(es[..n]);
      TypeTablesAgree(es[n].typeName);
      SizesAgree(es[..n]);
    }
  }

  lemma {:induction false} LayoutAt(es: seq<Entry>, i: nat)
    requires AllKnown(es) && i < |es|
    ensures Layout(es)[i]
         == FlatField(es[i].component, es[i].field, ParseFieldType(es[i].typeName).value, TotalSize(es[..i]))
  {
    var n := |es| - 1;
    if i < n {
      LayoutAt(es[..n], i);
      assert es[..n][..i] == es[..i];
    }
  }

  /** Field i of the parsed schema is member i of the struct: the same name, a type of the same size
      and, as byte_offset, the offset the packed struct gives it. */
  lemma OffsetsAreStructOffsets(es: seq<Entry>, i: nat)
    requires AllKnown(es) && i < |es|
    ensures var f, m := Layout(es)[i], Members(es)[i];
            && m == Member(CName(f.type_), f.component + "_" + f.field)
            && SizeOf(m.ctype) == ByteSize(f.type_)
            && f.byteOffset == PackedSize(Members(es)[..i])
  {
    LayoutAt(es, i);
    TypeTablesAgree(es[i].typeName);
    assert Members(es)[..i] == Members(es[..i]);
    SizesAgree(es[..i]);
  }

  // ---- the text, line by line ----------------------------------------------------------------

  const GUARD := "ZENBEDDED_SCHEMA__GENERATED__INTERFACE_DATA_H_"

  /** A header with the given sizes and struct bodies. */
  function Header(stateSize: nat, commandSize: nat, state: seq<string>, command: seq<string>): seq<string> {
    [ "#ifndef " + GUARD, "#define " + GUARD, "", "#include <stdint.h>", "",
      "#define ZENBEDDED_STATE_BYTE_SIZE " + Decimal(stateSize),
      "#define ZENBEDDED_COMMAND_BYTE_SIZE " + Decimal(commandSize), "",
      "#pragma pack(push, 1)", "typedef struct", "{" ]
    + state
    + [ "} zenbedded_state_t;", "", "typedef struct", "{" ]
    + command
    + [ "} zenbedded_command_t;", "#pragma pack(pop)", "", "#endif  // " + GUARD ]
  }

  /** The lines that '\n'.join(lines) fills in: joining nothing leaves one blank line. */
  function Joined(lines: seq<string>): seq<string> {
    if lines == [] then [""] else lines
  }

  function CxxHeader(state: seq<Entry>, command: seq<Entry>): seq<string>
    requires AllKnown(state) && AllKnown(command)
  {
    Header(TotalSize(state), TotalSize(command), Lines(Members(state)), Lines(Members(command)))
  }

  function PyHeader(state: seq<Entry>, command: seq<Entry>): seq<string>
    requires AllKnown(state) && AllKnown(command)
  {
    Header(PackedSize(Members(state)), PackedSize(Members(command)),
           Joined(Lines(Members(state))), Joined(Lines(Members(command))))
  }

  /** The two headers are the same text exactly when neither struct is empty. */
  lemma HeadersAgree(state: seq<Entry>, command: seq<Entry>)
    requires AllKnown(state) && AllKnown(command)
    ensures PyHeader(state, command) == CxxHeader(state, command) <==> state != [] && command != []
  {
    SizesAgree(state);
    SizesAgree(command);
    if state == [] || command == [] {
      assert |PyHeader(state, command)| > |CxxHeader(state, command)|;
    }
  }

  // ---- the text, read back -------------------------------------------------------------------

  const PUSH := "#pragma pack(push, 1)"
  const POP := "#pragma pack(pop)"
  const STATE_SIZE := "#define ZENBEDDED_STATE_BYTE_SIZE "
  const COMMAND_SIZE := "#define ZENBEDDED_COMMAND_BYTE_SIZE "

  /** A struct as a compiler sees it: its members in order and whether it is packed to one byte. */
  datatype Struct = Struct(members: seq<Member>, packed: bool)

  /** What a reader that goes through the lines has seen so far. */
  datatype Scan = Scan(
    packing: bool, body: Option<Struct>, stateSize: Option<nat>, commandSize: Option<nat>,
    structs: map<string, Struct>)

  const NOTHING_SEEN := Scan(false, None, None, None, map[])

  predicate StartsWith(l: string, p: string) { |p| <= |l| && l[..|p|] == p }

  function FirstSpace(s: string): (k: nat)
    ensures k <= |s|
  {
    if s == "" || s[0] == ' ' then 0 else 1 + FirstSpace(s[1..])
  }

  /** A line of two spaces, a type, a space, a name and a semicolon. */
  function ReadMember(l: string): Option<Member> {
    if !StartsWith(l, "  ") || l[|l| - 1] != ';' then None
    else
      var k := FirstSpace(l[2..]);
      if 2 + k + 1 <= |l| - 1 then Some(Member(l[2..2 + k], l[2 + k + 1..|l| - 1])) else None
  }

  function ScanLine(s: Scan, l: string): Scan {
    if l == "" then s
    else if l[0] == '#' then
      if l == PUSH then s.(packing := true)
      else if l == POP then s.(packing := false)
      else if StartsWith(l, STATE_SIZE) then s.(stateSize := Some(ParseDecimal(l[|STATE_SIZE|..])))
      else if StartsWith(l, COMMAND_SIZE) then s.(commandSize := Some(ParseDecimal(l[|COMMAND_SIZE|..])))
      else s
    else if l == "{" then s.(body := Some(Struct([], s.packing)))
    else if s.body.None? then s
    else if StartsWith(l, "} ") && l[|l| - 1] == ';' then
      s.(body := None, structs := s.structs[l[2..|l| - 1] := s.body.value])
    else if ReadMember(l).Some? then
      s.(body := Some(s.body.value.(members := s.body.value.members + [ReadMember(l).value])))
    else s
  }

  function Scanned(s: Scan, lines: seq<string>): Scan {
    if lines == [] then s else ScanLine(Scanned(s, lines[..|lines| - 1]), lines[|lines| - 1])
  }

  lemma {:induction false} ScannedOn(s: Scan, a: seq<string>, b: seq<string>)
    ensures Scanned(s, a + b) == Scanned(Scanned(s, a), b)
  {
    hide ScanLine;
    if b == [] {
      assert a + b == a;
    } else {
      assert (a + b)[..|a + b| - 1] == a + b[..|b| - 1];
      ScannedOn(s, a, b[..|b| - 1]);
    }
  }

  lemma ScannedOne(s: Scan, l: string)
    ensures Scanned(s, [l]) == ScanLine(s, l)
  {
    hide ScanLine;
    assert [l][..0] == [];
    assert Scanned(s, []) == s;
  }

  lemma {:induction false} FirstSpaceIs(a: string, b: string)
    requires ' ' !in a
    ensures FirstSpace(a + " " + b) == |a|
  {
    if a != "" {
      assert (a + " " + b)[1..] == a[1..] + " " + b;
      FirstSpaceIs(a[1..], b);
    }
  }

  lemma MemberLineReadsBack(m: Member)
    requires ' ' !in m.ctype
    ensures MemberLine(m) != "" && MemberLine(m)[0] == ' ' && ReadMember(MemberLine(m)) == Some(m)
  {
    var l := MemberLine(m);
    var rest := m.name + ";";
    assert l == "  " + (m.ctype + " " + rest);
    assert l[2..] == m.ctype + " " + rest;
    FirstSpaceIs(m.ctype, rest);
    var k := |m.ctype|;
    assert l[2..2 + k] == m.ctype;
    assert l[2 + k + 1..|l| - 1] == m.name;
  }

  lemma MemberLineScans(s: Scan, m: Member)
    requires s.body.Some? && ' ' !in m.ctype
    ensures ScanLine(s, MemberLine(m))
         == s.(body := Some(s.body.value.(members := s.body.value.members + [m])))
  {
    hide ReadMember, MemberLine;
    MemberLineReadsBack(m);
    var l := MemberLine(m);
    assert !StartsWith(l, "} ");
    assert l != "{";
    assert ReadMember(l) == Some(m);
  }

  predicate PlainTypes(ms: seq<Member>) { forall i :: 0 <= i < |ms| ==> ' ' !in ms[i].ctype }

  lemma {:induction false} MembersReadBack(s: Scan, ms: seq<Member>)
    requires s.body.Some? && PlainTypes(ms)
    ensures Scanned(s, Lines(ms)) == s.(body := Some(s.body.value.(members := s.body.value.members + ms)))
  {
    hide MemberLine, ScanLine;
    var had := s.body.value.members;
    if ms == [] {
      assert had + ms == had;
    } else {
      var n := |ms| - 1;
      LinesOneMore(ms, n);
      assert ms[..n + 1] == ms;
      MembersReadBack(s, ms[..n]);
      MemberLineScans(Scanned(s, Lines(ms[..n])), ms[n]);
      ScannedOn(s, Lines(ms[..n]), [MemberLine(ms[n])]);
      ScannedOne(Scanned(s, Lines(ms[..n])), MemberLine(ms[n]));
      assert had + ms[..n] + [ms[n]] == had + ms;
    }
  }

  /** A blank line in an empty struct says nothing. */
  lemma JoinedReadsBack(s: Scan, ms: seq<Member>)
    ensures Scanned(s, Joined(Lines(ms))) == Scanned(s, Lines(ms))
  {
    if ms == [] { ScannedOne(s, ""); }
  }

  lemma PlainLines(s: Scan)
    ensures ScanLine(s, "#ifndef " + GUARD) == s && ScanLine(s, "#define " + GUARD) == s
    ensures ScanLine(s, "") == s && ScanLine(s, "#include <stdint.h>") == s
    ensures ScanLine(s, "#endif  // " + GUARD) == s && (s.body.None? ==> ScanLine(s, "typedef struct") == s)
  {
    hide ScanLine;
    OtherDirective(s, "#ifndef " + GUARD);
    OtherDirective(s, "#define " + GUARD);
    OtherDirective(s, "#include <stdint.h>");
    OtherDirective(s, "#endif  // " + GUARD);
    OtherLines(s);
  }

  lemma OtherDirective(s: Scan, l: string)
    requires |l| >= 2 && l[0] == '#' && l[1] != 'p' && (l[1] == 'd' ==> |l| > 19 && l[19] == 'C')
    ensures ScanLine(s, l) == s
  {
    assert STATE_SIZE[1] == 'd' && COMMAND_SIZE[1] == 'd' && PUSH[1] == 'p' && POP[1] == 'p';
    assert STATE_SIZE[19] == 'T' && COMMAND_SIZE[19] == 'O';
  }

  lemma OtherLines(s: Scan)
    ensures ScanLine(s, "") == s && (s.body.None? ==> ScanLine(s, "typedef struct") == s)
  {}

  lemma SizeLines(s: Scan, n: nat)
    ensures ScanLine(s, STATE_SIZE + Decimal(n)) == s.(stateSize := Some(n))
    ensures ScanLine(s, COMMAND_SIZE + Decimal(n)) == s.(commandSize := Some(n))
  {
    hide Decimal, ParseDecimal;
    DecimalRoundTrip(n);
    var a, b := STATE_SIZE + Decimal(n), COMMAND_SIZE + Decimal(n);
    assert a[..|STATE_SIZE|] == STATE_SIZE && a[|STATE_SIZE|..] == Decimal(n);
    assert b[..|COMMAND_SIZE|] == COMMAND_SIZE && b[|COMMAND_SIZE|..] == Decimal(n);
    assert a[1] == 'd' && b[1] == 'd' && PUSH[1] == 'p' && POP[1] == 'p';
    assert b[18] == 'C' && STATE_SIZE[18] == 'S';
  }

  lemma ClosingLines(s: Scan)
    requires s.body.Some?
    ensures ScanLine(s, "} zenbedded_state_t;")
         == s.(body := None, structs := s.structs["zenbedded_state_t" := s.body.value])
    ensures ScanLine(s, "} zenbedded_command_t;")
         == s.(body := None, structs := s.structs["zenbedded_command_t" := s.body.value])
  {
    hide ScanLine;
    ClosingLine(s, "zenbedded_state_t");
    ClosingLine(s, "zenbedded_command_t");
    assert "} zenbedded_state_t;" == "} " + "zenbedded_state_t" + ";";
    assert "} zenbedded_command_t;" == "} " + "zenbedded_command_t" + ";";
  }

  lemma ClosingLine(s: Scan, name: string)
    requires s.body.Some?
    ensures ScanLine(s, "} " + name + ";") == s.(body := None, structs := s.structs[name := s.body.value])
  {
    var l := "} " + name + ";";
    assert l[0] == '}' && l[..2] == "} " && l[2..|l| - 1] == name;
  }

  /** The first lines, up to the opening brace of the first struct. */
  lemma TopReadsBack(stateSize: nat, commandSize: nat)
    ensures var top := [ "#ifndef " + GUARD, "#define " + GUARD, "", "#include <stdint.h>", "",
                         STATE_SIZE + Decimal(stateSize), COMMAND_SIZE + Decimal(commandSize), "", PUSH,
                         "typedef struct", "{" ];
            Scanned(NOTHING_SEEN, top)
            == Scan(true, Some(Struct([], true)), Some(stateSize), Some(commandSize), map[])
  {
    hide ScanLine, Decimal;
    var a := [ "#ifndef " + GUARD, "#define " + GUARD, "", "#include <stdint.h>", "" ];
    var b := [ STATE_SIZE + Decimal(stateSize), COMMAND_SIZE + Decimal(commandSize) ];
    var c := [ "", PUSH, "typedef struct", "{" ];
    var s0 := NOTHING_SEEN;
    PlainLines(s0);
    ScannedFive(s0, a);
    SizeLines(s0, stateSize);
    var s1 := s0.(stateSize := Some(stateSize));
    SizeLines(s1, commandSize);
    var s2 := s1.(commandSize := Some(commandSize));
    ScannedTwo(s0, b);
    PlainLines(s2);
    var s3 := s2.(packing := true);
    PlainLines(s3);
    OpeningLines(s2);
    OpeningLines(s3);
    ScannedFour(s2, c);
    ScannedOn(s0, a, b);
    ScannedOn(s0, a + b, c);
    assert a + b + c == [ "#ifndef " + GUARD, "#define " + GUARD, "", "#include <stdint.h>", "",
                          STATE_SIZE + Decimal(stateSize), COMMAND_SIZE + Decimal(commandSize), "", PUSH,
                          "typedef struct", "{" ];
  }

  lemma OpeningLines(s: Scan)
    ensures ScanLine(s, PUSH) == s.(packing := true) && ScanLine(s, POP) == s.(packing := false)
    ensures ScanLine(s, "{") == s.(body := Some(Struct([], s.packing)))
  {
    assert PUSH != POP;
  }

  lemma ScannedTwo(s: Scan, ls: seq<string>)
    requires |ls| == 2
    ensures Scanned(s, ls) == ScanLine(ScanLine(s, ls[0]), ls[1])
  {
    hide ScanLine;
    assert ls == [ls[0]] + [ls[1]];
    ScannedOn(s, [ls[0]], [ls[1]]);
    ScannedOne(s, ls[0]);
    ScannedOne(ScanLine(s, ls[0]), ls[1]);
  }

  lemma ScannedFour(s: Scan, ls: seq<string>)
    requires |ls| == 4
    ensures Scanned(s, ls) == ScanLine(ScanLine(ScanLine(ScanLine(s, ls[0]), ls[1]), ls[2]), ls[3])
  {
    hide ScanLine, Scanned;
    assert ls == ls[..2] + ls[2..];
    ScannedOn(s, ls[..2], ls[2..]);
    ScannedTwo(s, ls[..2]);
    ScannedTwo(Scanned(s, ls[..2]), ls[2..]);
  }

  lemma ScannedFive(s: Scan, ls: seq<string>)
    requires |ls| == 5
    ensures Scanned(s, ls) == ScanLine(ScanLine(ScanLine(ScanLine(ScanLine(s, ls[0]), ls[1]), ls[2]), ls[3]), ls[4])
  {
    hide ScanLine, Scanned;
    assert ls == ls[..4] + [ls[4]];
    ScannedOn(s, ls[..4], [ls[4]]);
    ScannedFour(s, ls[..4]);
    ScannedOne(Scanned(s, ls[..4]), ls[4]);
  }

  /** What a header must say about the two structs: their sizes, their members in order, and packing. */
  ghost predicate Describes(text: seq<string>, state: seq<Member>, command: seq<Member>) {
    var s := Scanned(NOTHING_SEEN, text);
    && s.stateSize == Some(PackedSize(state)) && s.commandSize == Some(PackedSize(command))
    && s.structs == map["zenbedded_state_t" := Struct(state, true), "zenbedded_command_t" := Struct(command, true)]
    && !s.packing && s.body.None?
  }

  lemma HeaderReadsBack(
      stateSize: nat, commandSize: nat, state: seq<string>, command: seq<string>, ms: seq<Member>, cs: seq<Member>)
    requires PlainTypes(ms) && PlainTypes(cs) && stateSize == PackedSize(ms) && commandSize == PackedSize(cs)
    requires state == Lines(ms) || state == Joined(Lines(ms))
    requires command == Lines(cs) || command == Joined(Lines(cs))
    ensures Describes(Header(stateSize, commandSize, state, command), ms, cs)
  {
    hide ScanLine, Scanned, Decimal, Lines, Joined, PackedSize, PlainTypes;
    var top := [ "#ifndef " + GUARD, "#define " + GUARD, "", "#include <stdint.h>", "",
                 STATE_SIZE + Decimal(stateSize), COMMAND_SIZE + Decimal(commandSize), "", PUSH,
                 "typedef struct", "{" ];
    var mid := [ "} zenbedded_state_t;", "", "typedef struct", "{" ];
    var end := [ "} zenbedded_command_t;", POP, "", "#endif  // " + GUARD ];
    var s1 := Scan(true, Some(Struct([], true)), Some(stateSize), Some(commandSize), map[]);
    TopReadsBack(stateSize, commandSize);
    JoinedReadsBack(s1, ms);
    MembersReadBack(s1, ms);
    var s2 := s1.(body := Some(Struct(ms, true)));
    var s3 := s2.(body := None, structs := map["zenbedded_state_t" := Struct(ms, true)]);
    ClosingLines(s2);
    PlainLines(s3);
    OpeningLines(s3);
    ScannedFour(s2, mid);
    var s4 := s3.(body := Some(Struct([], true)));
    JoinedReadsBack(s4, cs);
    MembersReadBack(s4, cs);
    var s5 := s4.(body := Some(Struct(cs, true)));
    ClosingLines(s5);
    var s6 := s5.(body := None, structs := s5.structs["zenbedded_command_t" := Struct(cs, true)]);
    OpeningLines(s6);
    PlainLines(s6.(packing := false));
    ScannedFour(s5, end);
    ScannedOn(NOTHING_SEEN, top, state);
    ScannedOn(NOTHING_SEEN, top + state, mid);
    ScannedOn(NOTHING_SEEN, top + state + mid, command);
    ScannedOn(NOTHING_SEEN, top + state + mid + command, end);
    assert Header(stateSize, commandSize, state, command) == top + state + mid + command + end;
    assert [] + ms == ms && [] + cs == cs;
    assert Scanned(NOTHING_SEEN, top + state) == s2;
    assert Scanned(NOTHING_SEEN, top + state + mid) == s4;
    assert Scanned(NOTHING_SEEN, top + state + mid + command) == s5;
  }

  lemma MembersArePlain(es: seq<Entry>)
    requires AllKnown(es)
    ensures PlainTypes(Members(es))
  {
    hide ParseFieldType;
  }

  /** Both headers describe the two structs: reading either text back gives their byte sizes, as sizeof of
      the members listed, every member in order with its type and name, and one-byte packing of both. */
  lemma HeadersDescribeTheStructs(state: seq<Entry>, command: seq<Entry>)
    requires AllKnown(state) && AllKnown(command)
    ensures Describes(CxxHeader(state, command), Members(state), Members(command))
    ensures Describes(PyHeader(state, command), Members(state), Members(command))
  {
    hide Describes, Header, Members, Lines, Joined, PlainTypes, PackedSize, TotalSize;
    var ms, cs := Members(state), Members(command);
    SizesAgree(state);
    SizesAgree(command);
    MembersArePlain(state);
    MembersArePlain(command);
    HeaderReadsBack(PackedSize(ms), PackedSize(cs), Lines(ms), Lines(cs), ms, cs);
    HeaderReadsBack(PackedSize(ms), PackedSize(cs), Joined(Lines(ms)), Joined(Lines(cs)), ms, cs);
  }

  lemma LinesOneMore(ms: seq<Member>, i: nat)
    requires i < |ms|
    ensures Lines(ms[..i + 1]) == Lines(ms[..i]) + [MemberLine(ms[i])]
  {}

  /** One of the two loops of write_c_header. */
  method WriteMembers(out: seq<string>, fs: seq<FlatField>, ghost es: seq<Entry>) returns (out': seq<string>)
    requires AllKnown(es) && fs == Layout(es)
    ensures out' == out + Lines(Members(es))
  {
    hide Layout, MemberLine;
    out' := out;
    for i := 0 to |fs|
      invariant out' == out + Lines(Members(es)[..i])
    {
      var f := fs[i];
      OffsetsAreStructOffsets(es, i);
      LinesOneMore(Members(es), i);
      out' := out' + [MemberLine(Member(CName(f.type_), f.component + "_" + f.field))];
    }
    assert Members(es)[..|es|] == Members(es);
  }

  /** write_c_header: None when the schema is not valid. */
  method WriteCHeader(s: InterfaceSchema, ghost state: seq<Entry>, ghost command: seq<Entry>)
    returns (text: Option<seq<string>>)
    requires s.valid ==>
               && Collected(state, s.stateFields, s.stateBufferSize)
               && Collected(command, s.commandFields, s.commandBufferSize)
    ensures text == if s.valid then Some(CxxHeader(state, command)) else None
    ensures s.valid ==> Describes(text.value, Members(state), Members(command))
  {
    if !s.valid { return None; }
    HeadersDescribeTheStructs(state, command);
    hide Describes;
    var out := [ "#ifndef " + GUARD, "#define " + GUARD, "", "#include <stdint.h>", "",
                 "#define ZENBEDDED_STATE_BYTE_SIZE " + Decimal(s.stateBufferSize),
                 "#define ZENBEDDED_COMMAND_BYTE_SIZE " + Decimal(s.commandBufferSize), "",
                 "#pragma pack(push, 1)", "typedef struct", "{" ];
    out := WriteMembers(out, s.stateFields, state);
    out := out + [ "} zenbedded_state_t;", "", "typedef struct", "{" ];
    out := WriteMembers(out, s.commandFields, command);
    out := out + [ "} zenbedded_command_t;", "#pragma pack(pop)", "", "#endif  // " + GUARD ];
    text := Some(out);
  }

  // ---- the generator -------------------------------------------------------------------------

  ghost predicate Gathered(es: seq<Entry>, lines: seq<string>, size: nat) {
    AllKnown(es) && lines == Lines(Members(es)) && size == PackedSize(Members(es))
  }

  lemma GatheredOneMore(before: seq<Entry>, es: seq<Entry>, i: nat, lines: seq<string>, size: nat)
    requires i < |es| && Gathered(before + es[..i], lines, size) && es[i].typeName in TYPE_MAP
    ensures var t := TYPE_MAP[es[i].typeName];
            Gathered(before + es[..i + 1],
                     lines + [MemberLine(Member(t.name, es[i].component + "_" + es[i].field))], size + t.size)
  {
    hide MemberLine, ParseFieldType, ByteSize, CName;
    var a, b := before + es[..i], before + es[..i + 1];
    TypeTablesAgree(es[i].typeName);
    assert b == a + [es[i]];
    KnownAppend(a, [es[i]]);
    assert Members(b) == Members(a) + [MemberOf(es[i])];
    assert Members(b)[..|a|] == Members(a);
    LinesOneMore(Members(b), |a|);
    assert Members(b)[..|b|] == Members(b);
  }

  lemma UnknownHere(before: seq<Entry>, es: seq<Entry>, i: nat)
    requires i < |es| && es[i].typeName !in TYPE_MAP
    ensures !AllKnown(es)
  {
    TypeTablesAgree(es[i].typeName);
  }

  /** The body of the generator's loop over components. */
  method GatherComponent(c: Component, lines: seq<string>, size: nat, ghost before: seq<Entry>)
    returns (ok: bool, lines': seq<string>, size': nat)
    requires Gathered(before, lines, size)
    ensures ok ==> Gathered(before + EntriesOf(c), lines', size')
    ensures !ok ==> !AllKnown(EntriesOf(c))
  {
    hide Gathered, MemberLine, ParseFieldType;
    lines', size' := lines, size;
    ghost var es := EntriesOf(c);
    assert before + es[..0] == before;
    for i := 0 to |c.fields|
      invariant Gathered(before + es[..i], lines', size')
    {
      var field := c.fields[i];
      if field.typeName !in TYPE_MAP {
        UnknownHere(before, es, i);
        return false, lines', size';
      }
      GatheredOneMore(before, es, i, lines', size');
      var t := TYPE_MAP[field.typeName];
      lines' := lines' + [MemberLine(Member(t.name, c.name + "_" + field.name))];
      size' := size' + t.size;
    }
    assert es[..|c.fields|] == es;
    ok := true;
  }

  method GatherSection(cs: seq<Component>) returns (ok: bool, lines: seq<string>, size: nat)
    ensures ok <==> AllKnown(Entries(cs))
    ensures ok ==> Gathered(Entries(cs), lines, size)
  {
    lines, size := [], 0;
    assert cs[..0] == [];
    for i := 0 to |cs|
      invariant Gathered(Entries(cs[..i]), lines, size)
    {
      assert cs[..i + 1][..i] == cs[..i];
      ok, lines, size := GatherComponent(cs[i], lines, size, Entries(cs[..i]));
      if !ok {
        ghost var rest := EntriesPrefix(cs, i);
        KnownAppend(Entries(cs[..i]) + EntriesOf(cs[i]), rest);
        KnownAppend(Entries(cs[..i]), EntriesOf(cs[i]));
        return;
      }
    }
    assert cs[..|cs|] == cs;
    ok := true;
  }

  function SectionOrEmpty(cs: Option<seq<Component>>): seq<Component> {
    if cs.None? then [] else cs.value
  }

  /** generate_header: None is exit status 1. A missing section counts as an empty one here, where
      the C++ parser refuses it; with both sections there the two accept the same documents. */
  method GenerateHeader(doc: Document) returns (text: Option<seq<string>>)
    ensures var state, command := Entries(SectionOrEmpty(doc.state)), Entries(SectionOrEmpty(doc.command));
            text == if AllKnown(state) && AllKnown(command) then Some(PyHeader(state, command)) else None
    ensures text.Some? ==>
              Describes(text.value, Members(Entries(SectionOrEmpty(doc.state))),
                        Members(Entries(SectionOrEmpty(doc.command))))
    ensures doc.state.Some? && doc.command.Some? ==> (text.Some? <==> Acceptable(doc))
  {
    hide Describes;
    var ok, state, stateSize := GatherSection(SectionOrEmpty(doc.state));
    if !ok { return None; }
    var ok', command, commandSize := GatherSection(SectionOrEmpty(doc.command));
    if !ok' { return None; }
    HeadersDescribeTheStructs(Entries(SectionOrEmpty(doc.state)), Entries(SectionOrEmpty(doc.command)));
    text := Some(Header(stateSize, commandSize, Joined(state), Joined(command)));
  }
}
