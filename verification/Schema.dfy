/**
 The interface schema: the C++ parser and field accessors of
 zenbedded_hardware_interface/src/interface_schema.cpp and the header generator of
 zenbedded_transport/tools/generate_tier2_payload.py, starting from a document that YAML has
 already taken apart.
 */
module Schema {
  import opened Bytes
  import opened KeyExpr

  datatype Field = Field(name: string, typeName: string)
  datatype Component = Component(name: string, fields: seq<Field>)
  datatype Document = Document(state: Option<seq<Component>>, command: Option<seq<Component>>)

  datatype FieldType = Float32 | Float64 | Int32 | Uint64 | Int16 | Uint8

  datatype FlatField = FlatField(component: string, field: string, type_: FieldType, byteOffset: nat)

  /** An entry of a section, with the component it belongs to. */
  datatype Entry = Entry(component: string, field: string, typeName: string)

  // ---- what a section means ------------------------------------------------------------------

  function EntriesOf(c: Component): seq<Entry> {
    seq<Entry>(|c.fields|, (i: nat) requires i < |c.fields| =>
      Entry(c.name, c.fields[i].name, c.fields[i].typeName))
  }

  /** All entries of a section in document order. */
  function Entries(cs: seq<Component>): seq<Entry> {
    if cs == [] then [] else Entries(cs[..|cs| - 1]) + EntriesOf(cs[|cs| - 1])
  }

  /** parse_field_type */
  function ParseFieldType(s: string): Option<FieldType> {
    if s == "float32" then Some(Float32)
    else if s == "float64" || s == "double" then Some(Float64)
    else if s == "int32" then Some(Int32)
    else if s == "uint64" then Some(Uint64)
    else if s == "int16" then Some(Int16)
    else if s == "uint8" then Some(Uint8)
    else None
  }

  predicate AllKnown(es: seq<Entry>) {
    forall i :: 0 <= i < |es| ==> ParseFieldType(es[i].typeName).Some?
  }

  /** field_byte_size */
  function ByteSize(t: FieldType): nat {
    match t
    case Float32 => 4
    case Float64 => 8
    case Int32 => 4
    case Uint64 => 8
    case Int16 => 2
    case Uint8 => 1
  }

  function TotalSize(es: seq<Entry>): nat
    requires AllKnown(es)
  {
    if es == [] then 0
    else TotalSize(es[..|es| - 1]) + ByteSize(ParseFieldType(es[|es| - 1].typeName).value)
  }

  /** Each entry starts where the entries before it end. */
  function Layout(es: seq<Entry>): (fs: seq<FlatField>)
    requires AllKnown(es)
    ensures |fs| == |es|
  {
    if es == [] then []
    else
      var init, e := es[..|es| - 1], es[|es| - 1];
      Layout(init) + [FlatField(e.component, e.field, ParseFieldType(e.typeName).value, TotalSize(init))]
  }

  // ---- the C++ parser ------------------------------------------------------------------------

  /** InterfaceSchema; an empty error is the absence of one. */
  datatype InterfaceSchema = InterfaceSchema(
    valid: bool, error: string, stateBufferSize: nat, commandBufferSize: nat,
    stateFields: seq<FlatField>, commandFields: seq<FlatField>)

  function UnknownType(e: Entry): string {
    "Field '" + e.field + "' in component '" + e.component + "': Unknown type: " + e.typeName
  }

  lemma KnownAppend(a: seq<Entry>, b: seq<Entry>)
    ensures AllKnown(a + b) <==> AllKnown(a) && AllKnown(b)
  {
    if AllKnown(a + b) {
      forall i | 0 <= i < |a| ensures ParseFieldType(a[i].typeName).Some? { assert (a + b)[i] == a[i]; }
      forall i | 0 <= i < |b| ensures ParseFieldType(b[i].typeName).Some? { assert (a + b)[|a| + i] == b[i]; }
    }
  }

  lemma LayoutOneMore(es: seq<Entry>, e: Entry)
    requires AllKnown(es) && ParseFieldType(e.typeName).Some?
    ensures AllKnown(es + [e])
    ensures Layout(es + [e])
         == Layout(es) + [FlatField(e.component, e.field, ParseFieldType(e.typeName).value, TotalSize(es))]
    ensures TotalSize(es + [e]) == TotalSize(es) + ByteSize(ParseFieldType(e.typeName).value)
  {
    assert (es + [e])[..|es|] == es;
  }

  /** What a parser has collected for the entries so far, or the error it stopped with. */
  ghost predicate Collected(es: seq<Entry>, fields: seq<FlatField>, size: nat) {
    AllKnown(es) && fields == Layout(es) && size == TotalSize(es)
  }

  ghost predicate StoppedAt(es: seq<Entry>, error: string) {
    exists i :: FirstUnknown(es, i) && error == UnknownType(es[i])
  }

  ghost predicate FirstUnknown(es: seq<Entry>, i: int) {
    0 <= i < |es| && ParseFieldType(es[i].typeName).None? && AllKnown(es[..i])
  }

  lemma StoppedAppend(a: seq<Entry>, b: seq<Entry>, c: seq<Entry>, error: string)
    requires AllKnown(a) && StoppedAt(b, error)
    ensures StoppedAt(a + b + c, error) && !AllKnown(a + b + c)
  {
    var i :| FirstUnknown(b, i) && error == UnknownType(b[i]);
    var t := a + b + c;
    assert t[|a| + i] == b[i];
    assert t[..|a| + i] == a + b[..i];
    KnownAppend(a, b[..i]);
    assert FirstUnknown(t, |a| + i);
  }

  lemma CollectedOneMore(before: seq<Entry>, es: seq<Entry>, i: nat, fields: seq<FlatField>, size: nat)
    requires i < |es| && Collected(before + es[..i], fields, size)
    requires ParseFieldType(es[i].typeName).Some?
    ensures var t := ParseFieldType(es[i].typeName).value;
            Collected(before + es[..i + 1],
                      fields + [FlatField(es[i].component, es[i].field, t, size)], size + ByteSize(t))
  {
    LayoutOneMore(before + es[..i], es[i]);
    assert before + es[..i] + [es[i]] == before + es[..i + 1];
  }

  lemma StoppedHere(before: seq<Entry>, es: seq<Entry>, i: nat, fields: seq<FlatField>, size: nat)
    requires i < |es| && Collected(before + es[..i], fields, size)
    requires ParseFieldType(es[i].typeName).None?
    ensures StoppedAt(es, UnknownType(es[i]))
  {
    KnownAppend(before, es[..i]);
    assert FirstUnknown(es, i);
  }

  /** parse_component_fields: appends to fields and buffer_size until a type is unknown. */
  method ParseComponentFields(c: Component, fields: seq<FlatField>, size: nat, ghost before: seq<Entry>)
    returns (ok: bool, fields': seq<FlatField>, size': nat, error: string)
    requires Collected(before, fields, size)
    ensures ok ==> Collected(before + EntriesOf(c), fields', size')
    ensures !ok ==> StoppedAt(EntriesOf(c), error)
  {
    hide Collected, StoppedAt, ParseFieldType, ByteSize, UnknownType;
    fields', size', error := fields, size, "";
    ghost var es := EntriesOf(c);
    assert before + es[..0] == before;
    for i := 0 to |c.fields|
      invariant Collected(before + es[..i], fields', size')
    {
      var field := c.fields[i];
      var t := ParseFieldType(field.typeName);
      if t.None? {
        StoppedHere(before, es, i, fields', size');
        return false, fields', size', UnknownType(Entry(c.name, field.name, field.typeName));
      }
      CollectedOneMore(before, es, i, fields', size');
      fields' := fields' + [FlatField(c.name, field.name, t.value, size')];
      size' := size' + ByteSize(t.value);
    }
    assert es[..|c.fields|] == es;
    ok := true;
  }

  lemma {:induction false} EntriesPrefix(cs: seq<Component>, i: nat) returns (rest: seq<Entry>)
    requires i < |cs|
    ensures Entries(cs) == Entries(cs[..i]) + EntriesOf(cs[i]) + rest
  {
    var n := |cs| - 1;
    if i == n {
      rest := [];
    } else {
      var r := EntriesPrefix(cs[..n], i);
      assert cs[..n][..i] == cs[..i];
      rest := r + EntriesOf(cs[n]);
    }
  }

  method ParseSection(cs: seq<Component>)
    returns (ok: bool, fields: seq<FlatField>, size: nat, error: string)
    ensures ok <==> AllKnown(Entries(cs))
    ensures ok ==> Collected(Entries(cs), fields, size)
    ensures !ok ==> StoppedAt(Entries(cs), error)
  {
    fields, size, error := [], 0, "";
    assert cs[..0] == [];
    for i := 0 to |cs|
      invariant Collected(Entries(cs[..i]), fields, size)
    {
      assert cs[..i + 1][..i] == cs[..i];
      ok, fields, size, error := ParseComponentFields(cs[i], fields, size, Entries(cs[..i]));
      if !ok {
        ghost var rest := EntriesPrefix(cs, i);
        StoppedAppend(Entries(cs[..i]), EntriesOf(cs[i]), rest, error);
        return;
      }
    }
    assert cs[..|cs|] == cs;
    ok := true;
  }

  predicate Acceptable(doc: Document) {
    && doc.state.Some? && doc.command.Some?
    && AllKnown(Entries(doc.state.value)) && AllKnown(Entries(doc.command.value))
  }

  /** from_yaml: valid exactly when both sections are there and every type is known, and then the
      fields are laid out back to back; otherwise the error names the first obstacle. */
  method FromYaml(doc: Document) returns (s: InterfaceSchema)
    ensures s.valid <==> Acceptable(doc)
    ensures s.valid ==>
              && s.error == ""
              && Collected(Entries(doc.state.value), s.stateFields, s.stateBufferSize)
              && Collected(Entries(doc.command.value), s.commandFields, s.commandBufferSize)
    ensures doc.state.None? ==> s.error == "Missing 'state_interfaces' in schema"
    ensures doc.state.Some? && doc.command.None? ==> s.error == "Missing 'command_interfaces' in schema"
    ensures doc.state.Some? && doc.command.Some? && !s.valid ==>
              if AllKnown(Entries(doc.state.value)) then StoppedAt(Entries(doc.command.value), s.error)
              else StoppedAt(Entries(doc.state.value), s.error)
  {
    s := InterfaceSchema(false, "", 0, 0, [], []);
    if doc.state.None? { return s.(error := "Missing 'state_interfaces' in schema"); }
    if doc.command.None? { return s.(error := "Missing 'command_interfaces' in schema"); }
    var ok, fields, size, error := ParseSection(doc.state.value);
    s := s.(stateFields := fields, stateBufferSize := size, error := error);
    if !ok { return; }
    ok, fields, size, error := ParseSection(doc.command.value);
    s := s.(commandFields := fields, commandBufferSize := size, error := error);
    if !ok { return; }
    s := s.(valid := true, error := "");
  }

  // ---- the fields tile the buffer ------------------------------------------------------------

  function End(f: FlatField): nat { f.byteOffset + ByteSize(f.type_) }

  /** The fields start at zero, leave no gap, do not overlap and end where the buffer ends. */
  predicate Tiles(fs: seq<FlatField>, size: nat) {
    && (if fs == [] then size == 0 else fs[0].byteOffset == 0 && End(fs[|fs| - 1]) == size)
    && forall i, j :: 0 <= i < |fs| && j == i + 1 < |fs| ==> fs[j].byteOffset == End(fs[i])
  }

  lemma {:induction false} LayoutTiles(es: seq<Entry>)
    requires AllKnown(es)
    ensures Tiles(Layout(es), TotalSize(es))
  {
    if es != [] { LayoutTiles(es[..|es| - 1]); }
  }

  lemma {:induction false} LaterFieldsStartLater(fs: seq<FlatField>, size: nat, i: nat, j: nat)
    requires Tiles(fs, size) && i < j < |fs|
    ensures End(fs[i]) <= fs[j].byteOffset
    decreases j
  {
    if j > i + 1 { LaterFieldsStartLater(fs, size, i, j - 1); }
  }

  lemma FieldFits(fs: seq<FlatField>, size: nat, i: nat)
    requires Tiles(fs, size) && i < |fs|
    ensures End(fs[i]) <= size
  {
    if i < |fs| - 1 { LaterFieldsStartLater(fs, size, i, |fs| - 1); }
  }

  predicate Covers(fs: seq<FlatField>, i: int, b: nat) {
    0 <= i < |fs| && fs[i].byteOffset <= b < End(fs[i])
  }

  lemma {:induction false} SomeFieldCovers(fs: seq<FlatField>, size: nat, b: nat, n: nat) returns (i: nat)
    requires Tiles(fs, size) && n < |fs| && b < End(fs[n])
    ensures Covers(fs, i, b)
  {
    if fs[n].byteOffset <= b { i := n; }
    else { i := SomeFieldCovers(fs, size, b, n - 1); }
  }

  /** Every byte of a parsed buffer belongs to exactly one field. */
  lemma EveryByteHasOneField(es: seq<Entry>, b: nat)
    requires AllKnown(es) && b < TotalSize(es)
    ensures exists i :: Covers(Layout(es), i, b) && forall j :: Covers(Layout(es), j, b) ==> j == i
  {
    var fs, size := Layout(es), TotalSize(es);
    LayoutTiles(es);
    var i := SomeFieldCovers(fs, size, b, |fs| - 1);
    forall j | Covers(fs, j, b) ensures j == i {
      if i < j { LaterFieldsStartLater(fs, size, i, j); }
      if j < i { LaterFieldsStartLater(fs, size, j, i); }
    }
  }
}
