/**
 The schema layer of python_client/chip/clusters/ClusterObjects.py: dictionaries keyed by
 field labels, written to TLV and read back under a cluster object descriptor.
 */
module Schema {
  import opened Wrappers
  import opened TlvFormat

  // ----- Descriptors -----

  /** A scalar field type. An enum knows its members and the value standing for unknown ones. */
  datatype Primitive =
    | UIntType | IntType | BoolType | StrType | BytesType | Float32Type | FloatType
    | EnumType(members: set<nat>, unknown: nat)

  datatype ElementType = PrimitiveType(primitive: Primitive) | StructType(descriptor: Descriptor)

  datatype Field = Field(
    name: string, tag: Tag, element: ElementType, isList: bool, nullable: bool, optional: bool)

  datatype Descriptor = Descriptor(fields: seq<Field>)

  /** Labels and context tags that are distinct, at every depth. */
  predicate WellFormed(desc: Descriptor)
    decreases desc, 1
  {
    && DistinctFields(desc.fields)
    && forall i :: 0 <= i < |desc.fields| ==> WellFormedField(desc.fields[i])
  }

  predicate WellFormedField(f: Field)
    decreases f, 0
  {
    f.element.StructType? ==>
      assert f decreases to f.element;
      assert f.element decreases to f.element.descriptor;
      WellFormed(f.element.descriptor)
  }

  predicate DistinctFields(fields: seq<Field>) {
    && (forall i :: 0 <= i < |fields| ==> fields[i].tag.Context?)
    && (forall i, j :: 0 <= i < j < |fields| ==> fields[i].tag != fields[j].tag && fields[i].name != fields[j].name)
  }

  function GetFieldByTag(fields: seq<Field>, tag: Tag): (r: Option<Field>)
    ensures r.Some? ==> r.value in fields && r.value.tag == tag
    ensures r.None? && tag.Context? ==> forall f :: f in fields ==> f.tag != tag
  {
    if fields == [] then None
    else if tag.Context? && fields[0].tag == tag then Some(fields[0])
    else GetFieldByTag(fields[1..], tag)
  }

  // ----- Dictionaries -----

  /** A dictionary key: a field label, or the tag of a field the descriptor does not know. */
  datatype Key = Label(name: string) | RawTag(tag: Tag)

  datatype Data =
    | Missing
    | NullValue
    | Atom(scalar: Scalar)
    | EnumMember(n: nat)
    | Many(items: seq<Data>)
    | Struct(entries: map<Key, Data>)
    | Raw(value: Value)

  /** The scalars of a primitive's own Python type; nothing is coerced. */
  predicate IsOfType(p: Primitive, d: Data) {
    match p
    case UIntType => d.Atom? && d.scalar.UInt?
    case IntType => d.Atom? && d.scalar.SInt?
    case BoolType => d.Atom? && d.scalar.Bool?
    case StrType => d.Atom? && d.scalar.Text?
    case BytesType => d.Atom? && d.scalar.Octets?
    case Float32Type => d.Atom? && d.scalar.Float32?
    case FloatType => d.Atom? && d.scalar.Float64?
    case EnumType(members, _) => d.EnumMember? && d.n in members
  }

  function ScalarOf(d: Data): Scalar
    requires d.Atom? || d.EnumMember?
  {
    if d.Atom? then d.scalar else UInt(d.n)
  }

  // ----- Writing: the wire elements of a dictionary -----

  // An error is the first one raised, since members are written in order.

  /** The element written at `place`, the innermost open container. */
  function ElementWire(place: Option<Kind>, tag: Tag, t: ElementType, d: Data): (r: Result<Wire>)
    ensures r.Ok? ==> r.value.tag == tag && TagAllowed(place, tag) && Printable(r.value)
    decreases d, 2
  {
    match t
    case StructType(desc) =>
      if !d.Struct? || !TagAllowed(place, tag) then Err(ValueError)
      else
        var ws := StructWires(desc.fields, d);
        if ws.Err? then Err(ws.error) else Ok(Container(tag, Structure, ws.value))
    case PrimitiveType(p) =>
      if IsOfType(p, d) && ScalarFits(ScalarOf(d)) && TagAllowed(place, tag) then Ok(Leaf(tag, ScalarOf(d)))
      else Err(ValueError)
  }

  function One(w: Result<Wire>): Result<seq<Wire>> {
    if w.Err? then Err(w.error) else Ok([w.value])
  }

  function Join(a: Result<seq<Wire>>, b: Result<seq<Wire>>): (r: Result<seq<Wire>>)
    ensures r.Ok? ==> a.Ok? && b.Ok? && forall kind ::
              MembersPrintable(kind, a.value) && MembersPrintable(kind, b.value) ==> MembersPrintable(kind, r.value)
  {
    if a.Err? then a else if b.Err? then b else Ok(a.value + b.value)
  }

  function ListWires(t: ElementType, items: seq<Data>): (r: Result<seq<Wire>>)
    ensures r.Ok? ==> MembersPrintable(Array, r.value)
    decreases items, 3
  {
    if items == [] then Ok([])
    else Join(One(ElementWire(Some(Array), Anonymous, t, items[0])), ListWires(t, items[1..]))
  }

  /** The elements a field contributes to its structure: one, or none when its value is `None`. */
  function FieldWires(f: Field, d: Data): (r: Result<seq<Wire>>)
    ensures r.Ok? ==> MembersPrintable(Structure, r.value)
    decreases d, 3
  {
    match d
    case NullValue =>
      if f.nullable && TagAllowed(Some(Structure), f.tag) then Ok([Leaf(f.tag, Null)]) else Err(ValueError)
    case Missing => Absent(f)
    case Many(items) =>
      if !f.isList || !TagAllowed(Some(Structure), f.tag) then Err(ValueError)
      else
        var ws := ListWires(f.element, items);
        if ws.Err? then ws else Ok([Container(f.tag, Array, ws.value)])
    case _ =>
      if f.isList then Err(TypeError) else One(ElementWire(Some(Structure), f.tag, f.element, d))
  }

  function Absent(f: Field): Result<seq<Wire>> {
    if f.optional then Ok([]) else Err(ValueError)
  }

  /** A missing key counts as `None`. */
  function EntryWires(f: Field, d: Data): (r: Result<seq<Wire>>)
    requires d.Struct?
    ensures r.Ok? ==> MembersPrintable(Structure, r.value)
    decreases d, 0
  {
    if Label(f.name) in d.entries then FieldWires(f, d.entries[Label(f.name)]) else Absent(f)
  }

  function StructWires(fields: seq<Field>, d: Data): (r: Result<seq<Wire>>)
    requires d.Struct?
    ensures r.Ok? ==> MembersPrintable(Structure, r.value)
    decreases d, 1, |fields|
  {
    if fields == [] then Ok([]) else Join(EntryWires(fields[0], d), StructWires(fields[1..], d))
  }

  // ----- Which dictionaries conform to a descriptor -----

  /** 64-bit integers, and lengths that have a 64-bit prefix. */
  predicate AtomFits(s: Scalar) {
    match s
    case UInt(n) => n <= UINT64_MAX
    case SInt(i) => -0x8000_0000_0000_0000 <= i < 0x8000_0000_0000_0000
    case Text(utf8) => |utf8| <= UINT64_MAX
    case Octets(data) => |data| <= UINT64_MAX
    case _ => true
  }

  /** Every field is left out where that is allowed, or has a value of its type under a tag from 0 to 255. */
  predicate Conforms(desc: Descriptor, d: Data)
    decreases d, 1
  {
    d.Struct? && forall i :: 0 <= i < |desc.fields| ==> FieldConforms(desc.fields[i], d)
  }

  predicate FieldConforms(f: Field, d: Data)
    requires d.Struct?
    decreases d, 0
  {
    if !Present(f, d) then f.optional
    else
      && f.tag.Context? && 0 <= f.tag.number <= UINT8_MAX
      && ValueConforms(f, d.entries[Label(f.name)])
  }

  /** Null only where nullable, lists exactly at list fields. */
  predicate ValueConforms(f: Field, v: Data)
    decreases v, 3
  {
    match v
    case NullValue => f.nullable
    case Many(items) => f.isList && forall i :: 0 <= i < |items| ==> ElementConforms(f.element, items[i])
    case _ => !f.isList && ElementConforms(f.element, v)
  }

  predicate ElementConforms(t: ElementType, v: Data)
    decreases v, 2
  {
    match t
    case PrimitiveType(p) =>
      IsOfType(p, v) && (v.Atom? ==> AtomFits(v.scalar)) && (v.EnumMember? ==> v.n <= UINT64_MAX)
    case StructType(desc) => Conforms(desc, v)
  }

  // ----- The TLV value of a dictionary -----

  predicate Present(f: Field, d: Data)
    requires d.Struct?
  {
    Label(f.name) in d.entries && !d.entries[Label(f.name)].Missing?
  }

  function ElementValue(t: ElementType, d: Data): Value
    decreases d, 2
  {
    if t.StructType? && d.Struct? then Dict(StructValue(t.descriptor.fields, d))
    else if t.PrimitiveType? && (d.Atom? || d.EnumMember?) then Plain(ScalarOf(d))
    else Plain(Null)
  }

  function ListValue(t: ElementType, items: seq<Data>): (vs: seq<Value>)
    ensures |vs| == |items|
    decreases items, 3
  {
    if items == [] then [] else [ElementValue(t, items[0])] + ListValue(t, items[1..])
  }

  function FieldValue(f: Field, d: Data): Value
    decreases d, 3
  {
    match d
    case NullValue => Plain(Null)
    case Many(items) => List(ListValue(f.element, items))
    case _ => ElementValue(f.element, d)
  }

  function StructValue(fields: seq<Field>, d: Data): map<Tag, Value>
    requires d.Struct?
    decreases d, 1, |fields|
  {
    if fields == [] then map[]
    else
      var rest := StructValue(fields[1..], d);
      if Present(fields[0], d) then map[fields[0].tag := FieldValue(fields[0], d.entries[Label(fields[0].name)])] + rest
      else rest
  }

  // ----- Reading: from a tag dictionary to a label dictionary -----

  /** The number an enum lookup compares with its members; an integral float is not considered. */
  function EnumNumber(v: Value): int {
    match v
    case Plain(UInt(n)) => n
    case Plain(SInt(i)) => i
    case Plain(Bool(b)) => if b then 1 else 0
    case _ => -1
  }

  function ConvertPrimitive(p: Primitive, v: Value): Result<Data> {
    match p
    case EnumType(members, unknown) =>
      var n := EnumNumber(v);
      Ok(EnumMember(if n >= 0 && n in members then n else unknown))
    case _ =>
      if v.Plain? && IsInstance(p, v.scalar) then Ok(Atom(v.scalar)) else Err(ValueError)
  }

  /** `isinstance(value, elementType)`: uint and bool are ints, float32 is a float. */
  predicate IsInstance(p: Primitive, s: Scalar) {
    match p
    case UIntType => s.UInt?
    case IntType => s.UInt? || s.SInt? || s.Bool?
    case BoolType => s.Bool?
    case StrType => s.Text?
    case BytesType => s.Octets?
    case Float32Type => s.Float32?
    case FloatType => s.Float32? || s.Float64?
    case EnumType(_, _) => false
  }

  function ConvertNonArray(t: ElementType, v: Value): Result<Data>
    decreases v, 2
  {
    match t
    case PrimitiveType(p) => ConvertPrimitive(p, v)
    case StructType(desc) => if v.Dict? then TagsToLabels(desc, v) else Err(ValueError)
  }

  function ConvertList(t: ElementType, vs: seq<Value>): Result<seq<Data>>
    decreases vs, 3
  {
    if vs == [] then Ok([])
    else
      var first, rest := ConvertNonArray(t, vs[0]), ConvertList(t, vs[1..]);
      if first.Err? then Err(first.error) else if rest.Err? then rest else Ok([first.value] + rest.value)
  }

  function ConvertField(f: Field, v: Value): Result<Data>
    decreases v, 3
  {
    if v == Plain(Null) then Ok(NullValue)
    else if !f.isList then ConvertNonArray(f.element, v)
    else if !v.List? then Err(ValueError)
    else
      var items := ConvertList(f.element, v.elements);
      if items.Err? then Err(items.error) else Ok(Many(items.value))
  }

  /** Every known tag under its label, converted; every other one raw under itself. */
  function TagsToLabels(desc: Descriptor, v: Value): Result<Data>
    requires v.Dict?
    decreases v, 1
  {
    var known := KnownEntries(desc.fields, v);
    if known.Err? then Err(known.error) else Ok(Struct(known.value + UnknownEntries(desc.fields, v.fields)))
  }

  function KnownEntries(fields: seq<Field>, v: Value): Result<map<Key, Data>>
    requires v.Dict?
    decreases v, 0, |fields|
  {
    if fields == [] then Ok(map[])
    else
      var rest := KnownEntries(fields[1..], v);
      if rest.Err? || fields[0].tag !in v.fields then rest
      else
        var first := ConvertField(fields[0], v.fields[fields[0].tag]);
        if first.Err? then Err(first.error) else Ok(rest.value[Label(fields[0].name) := first.value])
  }

  function UnknownEntries(fields: seq<Field>, m: map<Tag, Value>): map<Key, Data> {
    map t | t in m && GetFieldByTag(fields, t).None? :: RawTag(t) := Raw(m[t])
  }

  // ----- Whole dictionaries -----

  /** `DictToTLV`. */
  function DictToTlv(desc: Descriptor, d: Data): Result<seq<Byte>>
    requires d.Struct?
  {
    var w := ElementWire(None, Anonymous, StructType(desc), d);
    if w.Err? then Err(w.error) else Ok(Print(w.value))
  }

  /** `TLVToDict`: the top-level element read is the one under the key "Any". */
  function TlvToDict(desc: Descriptor, tlv: seq<Byte>): Result<Data> {
    match ParseItems(tlv, Dict(map[]))
    case Broken(e) => Err(e)
    case Collected(out, _) =>
      var v := if out.Dict? && Anonymous in out.fields then out.fields[Anonymous] else Dict(map[]);
      if v.Dict? then TagsToLabels(desc, v) else Err(AttributeError)
  }

  // ----- What a reader is expected to see -----

  /** `reader` knows no field that `writer` does not have with the same name and type, at every depth. */
  predicate Older(reader: Descriptor, writer: Descriptor)
    decreases reader, 1
  {
    forall i :: 0 <= i < |reader.fields| ==> OlderField(reader.fields[i], GetFieldByTag(writer.fields, reader.fields[i].tag))
  }

  predicate OlderField(f: Field, g: Option<Field>)
    decreases f, 0
  {
    assert f decreases to f.element;
    g.Some? && f.name == g.value.name && f.isList == g.value.isList && OlderElement(f.element, g.value.element)
  }

  /** Enums may have other members: a reader takes those it does not know for its unknown value. */
  predicate OlderElement(t: ElementType, u: ElementType)
    decreases t, 0
  {
    match t
    case PrimitiveType(p) =>
      u == t || (p.EnumType? && u.PrimitiveType? && u.primitive.EnumType?)
    case StructType(desc) => u.StructType? && Older(desc, u.descriptor)
  }

  /** The dictionary `d`, written under `writer`, as a reader with the descriptor `reader` gets it. */
  function View(reader: Descriptor, writer: Descriptor, d: Data): map<Key, Data>
    requires d.Struct?
    decreases d, 1
  {
    KnownView(reader.fields, writer, d) + UnknownEntries(reader.fields, StructValue(writer.fields, d))
  }

  function KnownView(fields: seq<Field>, writer: Descriptor, d: Data): map<Key, Data>
    requires d.Struct?
    decreases d, 0, |fields|
  {
    if fields == [] then map[]
    else
      var f, g, rest := fields[0], GetFieldByTag(writer.fields, fields[0].tag), KnownView(fields[1..], writer, d);
      if g.None? || !Present(g.value, d) then rest
      else rest[Label(f.name) := ViewField(f, g.value, d.entries[Label(g.value.name)])]
  }

  function ViewField(f: Field, g: Field, d: Data): Data
    decreases d, 3
  {
    match d
    case Many(items) => Many(ViewList(f.element, g.element, items))
    case _ => ViewElement(f.element, g.element, d)
  }

  function ViewList(t: ElementType, u: ElementType, items: seq<Data>): (r: seq<Data>)
    ensures |r| == |items|
    decreases items, 3
  {
    if items == [] then [] else [ViewElement(t, u, items[0])] + ViewList(t, u, items[1..])
  }

  function ViewElement(t: ElementType, u: ElementType, d: Data): Data
    decreases d, 2
  {
    if t.StructType? && u.StructType? && d.Struct? then Struct(View(t.descriptor, u.descriptor, d))
    else if t.PrimitiveType? && t.primitive.EnumType? && d.EnumMember? then
      EnumMember(if d.n in t.primitive.members then d.n else t.primitive.unknown)
    else d
  }

  /** `d` without its `None`s and without keys that are no field's label, at every depth. */
  function Prune(t: ElementType, d: Data): Data
    decreases d, 1
  {
    match d
    case Struct(_) => if t.StructType? then Struct(PruneEntries(t.descriptor.fields, d)) else d
    case Many(items) => Many(seq(|items|, i requires 0 <= i < |items| => Prune(t, items[i])))
    case _ => d
  }

  function PruneEntries(fields: seq<Field>, d: Data): map<Key, Data>
    requires d.Struct?
    decreases d, 0
  {
    map k | k in d.entries && k.Label? && GetFieldByLabel(fields, k.name).Some? && !d.entries[k].Missing? ::
      Prune(GetFieldByLabel(fields, k.name).value.element, d.entries[k])
  }

  function GetFieldByLabel(fields: seq<Field>, name: string): (r: Option<Field>)
    ensures r.Some? ==> r.value in fields && r.value.name == name
    ensures r.None? ==> forall f :: f in fields ==> f.name != name
  {
    if fields == [] then None
    else if fields[0].name == name then Some(fields[0])
    else GetFieldByLabel(fields[1..], name)
  }
}
