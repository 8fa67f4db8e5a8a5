/**
 What a dictionary is on the wire, field by field: which TLV value every kind of data
 becomes, and which TLV values a field takes when it is read.
 */
module SchemaWire {
  import opened Wrappers
  import opened TlvFormat
  import opened TlvBytes
  import opened Schema
  import opened SchemaLaws

  // ----- Writing -----

  /** The dictionary has something other than `None` for the field. */
  predicate Given(f: Field, d: Data)
    requires d.Struct?
  {
    Label(f.name) in d.entries && d.entries[Label(f.name)] != Missing
  }

  /** A scalar is itself, an enum member an unsigned integer, and a structure a dictionary of its fields. */
  predicate ElementCarries(t: ElementType, d: Data, v: Value)
    decreases d, 2
  {
    match d
    case Atom(s) => v == Plain(s)
    case EnumMember(n) => v == Plain(UInt(n))
    case Struct(_) => t.StructType? && v.Dict? && StructCarries(t.descriptor.fields, d, v.fields)
    case _ => false
  }

  /** Null is TLV null, and a list an array of its elements in order. */
  predicate FieldCarries(f: Field, d: Data, v: Value)
    decreases d, 3
  {
    match d
    case NullValue => v == Plain(Null)
    case Many(items) =>
      v.List? && |v.elements| == |items| &&
      forall i :: 0 <= i < |items| ==> ElementCarries(f.element, items[i], v.elements[i])
    case _ => ElementCarries(f.element, d, v)
  }

  /** Exactly the given fields, each under its own tag. */
  predicate StructCarries(fields: seq<Field>, d: Data, m: map<Tag, Value>)
    requires d.Struct?
    decreases d, 1
  {
    && (forall t :: t in m ==> exists i :: 0 <= i < |fields| && fields[i].tag == t && Given(fields[i], d))
    && (forall i :: 0 <= i < |fields| && Given(fields[i], d) ==>
          fields[i].tag in m && FieldCarries(fields[i], d.entries[Label(fields[i].name)], m[fields[i].tag]))
  }

  lemma {:induction false} ElementIsCarried(t: ElementType, d: Data)
    requires ElementConforms(t, d) && (t.StructType? ==> WellFormed(t.descriptor))
    ensures ElementCarries(t, d, ElementValue(t, d))
    decreases d, 2
  {
    if t.StructType? {
      StructIsCarried(t.descriptor, d);
    }
  }

  lemma {:induction false} ListIsCarried(t: ElementType, items: seq<Data>)
    requires forall i :: 0 <= i < |items| ==> ElementConforms(t, items[i])
    requires t.StructType? ==> WellFormed(t.descriptor)
    ensures forall i :: 0 <= i < |items| ==> ElementCarries(t, items[i], ListValue(t, items)[i])
    decreases items, 3
  {
    hide ElementCarries, ElementConforms, ElementValue;
    if items != [] {
      ElementIsCarried(t, items[0]);
      ListIsCarried(t, items[1..]);
      forall i | 0 < i < |items|
        ensures ElementCarries(t, items[i], ListValue(t, items)[i])
      {
        assert items[i] == items[1..][i - 1] && ListValue(t, items)[i] == ListValue(t, items[1..])[i - 1];
      }
    }
  }

  lemma {:induction false} FieldIsCarried(f: Field, d: Data)
    requires !d.Missing? && ValueConforms(f, d) && WellFormedField(f)
    ensures FieldCarries(f, d, FieldValue(f, d))
    decreases d, 3
  {
    if d.Many? {
      ListIsCarried(f.element, d.items);
    } else if !d.NullValue? {
      ElementIsCarried(f.element, d);
    }
  }

  lemma {:induction false} StructIsCarried(desc: Descriptor, d: Data)
    requires d.Struct? && WellFormed(desc) && Conforms(desc, d)
    ensures StructCarries(desc.fields, d, StructValue(desc.fields, d))
    decreases d, 1
  {
    hide StructValue, FieldCarries, FieldValue, ValueConforms;
    var m := StructValue(desc.fields, d);
    forall i | 0 <= i < |desc.fields| && Given(desc.fields[i], d)
      ensures desc.fields[i].tag in m
      ensures FieldCarries(desc.fields[i], d.entries[Label(desc.fields[i].name)], m[desc.fields[i].tag])
    {
      var f := desc.fields[i];
      FirstWithTag(desc.fields, f);
      StructValueAt(desc.fields, d, f.tag);
      assert FieldConforms(f, d) && WellFormedField(f);
      FieldIsCarried(f, d.entries[Label(f.name)]);
    }
    forall t | t in m
      ensures exists i :: 0 <= i < |desc.fields| && desc.fields[i].tag == t && Given(desc.fields[i], d)
    {
      StructValueAt(desc.fields, d, t);
    }
  }

  /**
   The bytes of a conforming dictionary are one anonymous TLV structure that carries it:
   each given field under its tag, scalars as they are, enum members as unsigned integers.
   */
  lemma EncodingCarries(desc: Descriptor, d: Data) returns (m: map<Tag, Value>)
    requires d.Struct? && WellFormed(desc) && Conforms(desc, d)
    ensures DictToTlv(desc, d).Ok?
    ensures var bytes := DictToTlv(desc, d).value;
            ParseElement(bytes) == Element(Anonymous, Dict(m), |bytes|)
    ensures StructCarries(desc.fields, d, m)
  {
    ConformingIsEncoded(desc, d);
    StructIsCarried(desc, d);
    hide StructWires, StructValue, Conforms, StructCarries;
    m := StructValue(desc.fields, d);
    var w := Container(Anonymous, Structure, StructWires(desc.fields, d).value);
    StructMeansValue(desc.fields, d, map[]);
    assert map[] + m == m;
    PrintThenParse(w, []);
    assert Print(w) + [] == Print(w);
  }

  /** A reader that does not know a field finds, under its tag, what the writer put there. */
  lemma UnknownFieldIsCarried(reader: Descriptor, writer: Descriptor, d: Data, f: Field) returns (v: Value)
    requires d.Struct? && WellFormed(writer) && DistinctFields(reader.fields) && Older(reader, writer) && Conforms(writer, d)
    requires f in writer.fields && Given(f, d) && GetFieldByTag(reader.fields, f.tag).None?
    ensures DictToTlv(writer, d).Ok?
    ensures var seen := TlvToDict(reader, DictToTlv(writer, d).value);
            && seen.Ok? && seen.value.Struct? && RawTag(f.tag) in seen.value.entries
            && seen.value.entries[RawTag(f.tag)] == Raw(v)
    ensures FieldCarries(f, d.entries[Label(f.name)], v)
  {
    v := FieldValue(f, d.entries[Label(f.name)]);
    EvolutionKeepsKnownFields(reader, writer, d, f);
    var i :| 0 <= i < |writer.fields| && writer.fields[i] == f;
    assert FieldConforms(f, d) && WellFormedField(f);
    FieldIsCarried(f, d.entries[Label(f.name)]);
  }

  /** One enum field with tag 0: `15 24 00 n 18`. */
  lemma OneEnumField(name: string, members: set<nat>, unknown: nat, n: nat)
    requires n in members && n <= 0xFF
    ensures var f := Field(name, Context(0), PrimitiveType(EnumType(members, unknown)), false, false, false);
            var d := Struct(map[Label(name) := EnumMember(n)]);
            DictToTlv(Descriptor([f]), d) == Ok([0x15, 0x24, 0x00, n, 0x18])
  {
    var f := Field(name, Context(0), PrimitiveType(EnumType(members, unknown)), false, false, false);
    var d := Struct(map[Label(name) := EnumMember(n)]);
    var leaf := Leaf(Context(0), UInt(n));
    var t := PrimitiveType(EnumType(members, unknown));
    assert ElementWire(Some(Structure), Context(0), t, EnumMember(n)) == Ok(leaf);
    assert d.entries[Label(name)] == EnumMember(n);
    assert EntryWires(f, d) == One(ElementWire(Some(Structure), Context(0), t, EnumMember(n)));
    assert [f][1..] == [] && StructWires([], d) == Ok([]);
    assert StructWires([f], d) == Ok([leaf] + []);
    assert [leaf] + [] == [leaf];
    var w := Container(Anonymous, Structure, [leaf]);
    assert ElementWire(None, Anonymous, StructType(Descriptor([f])), d) == Ok(w);
    PrintIsBytes(w);
    OneMember(leaf);
    assert Bytes(leaf) == [0x24, 0x00, n];
    assert AllBytes([leaf]) == [0x24, 0x00, n];
    assert Bytes(w) == [0x15] + [0x24, 0x00, n] + [0x18] == [0x15, 0x24, 0x00, n, 0x18];
  }

  lemma OneMember(w: Wire)
    requires CanWrite(w)
    ensures AllBytes([w]) == Bytes(w)
  {
    assert [w][1..] == [];
    assert AllBytes([]) == [];
  }

  // ----- Which error is raised -----

  predicate Single(d: Data) {
    !d.NullValue? && !d.Missing? && !d.Many?
  }

  /** ValueError for a value that does not suit its field or tag, but TypeError for a single value at a list field. */
  lemma FieldErrors(f: Field, d: Data)
    ensures d.NullValue? && !f.nullable ==> FieldWires(f, d) == Err(ValueError)
    ensures d.Missing? && !f.optional ==> FieldWires(f, d) == Err(ValueError)
    ensures d.Many? && !f.isList ==> FieldWires(f, d) == Err(ValueError)
    ensures Single(d) && f.isList ==> FieldWires(f, d) == Err(TypeError)
    ensures Single(d) && !f.isList && f.element.StructType? && !d.Struct? ==> FieldWires(f, d) == Err(ValueError)
    ensures Single(d) && !f.isList && f.element.PrimitiveType? && !IsOfType(f.element.primitive, d) ==>
              FieldWires(f, d) == Err(ValueError)
    ensures (f.tag.Anonymous? || !(0 <= f.tag.number <= 0xFF)) && !d.Missing? && !(Single(d) && f.isList) ==>
              FieldWires(f, d) == Err(ValueError)
  {
  }

  /** And it is the error of the first field that fails, in the order of the descriptor. */
  lemma {:induction false} FirstFieldFails(fields: seq<Field>, d: Data, i: nat)
    requires d.Struct? && i < |fields| && EntryWires(fields[i], d).Err?
    requires forall j :: 0 <= j < i ==> EntryWires(fields[j], d).Ok?
    ensures StructWires(fields, d) == Err(EntryWires(fields[i], d).error)
  {
    hide EntryWires;
    if i > 0 {
      assert EntryWires(fields[0], d).Ok?;
      assert fields[1..][i - 1] == fields[i] && forall j :: 0 <= j < i - 1 ==> fields[1..][j] == fields[j + 1];
      FirstFieldFails(fields[1..], d, i - 1);
    }
  }

  // ----- Reading -----

  /** What a scalar field takes: its own scalars, an integer also the unsigned ones and booleans, a float both widths. */
  lemma ScalarsTaken(p: Primitive, s: Scalar)
    requires !p.EnumType?
    ensures ConvertPrimitive(p, Plain(s)) ==
            if (p == UIntType && s.UInt?) || (p == BoolType && s.Bool?) || (p == StrType && s.Text?)
               || (p == BytesType && s.Octets?) || (p == Float32Type && s.Float32?)
               || (p == IntType && (s.SInt? || s.UInt? || s.Bool?)) || (p == FloatType && (s.Float64? || s.Float32?))
            then Ok(Atom(s)) else Err(ValueError)
  {
  }

  /** A member of an enum is found by its number, of whatever integer type; everything else is unknown. */
  lemma MembersFound(members: set<nat>, unknown: nat, n: nat)
    requires n in members
    ensures ConvertPrimitive(EnumType(members, unknown), Plain(UInt(n))) == Ok(EnumMember(n))
    ensures ConvertPrimitive(EnumType(members, unknown), Plain(SInt(n))) == Ok(EnumMember(n))
    ensures n == 1 ==> ConvertPrimitive(EnumType(members, unknown), Plain(Bool(true))) == Ok(EnumMember(n))
    ensures n == 0 ==> ConvertPrimitive(EnumType(members, unknown), Plain(Bool(false))) == Ok(EnumMember(n))
    ensures forall v: Value ::
              && v != Plain(UInt(n)) && v != Plain(SInt(n))
              && (n == 1 ==> v != Plain(Bool(true))) && (n == 0 ==> v != Plain(Bool(false))) && n != unknown
              ==> ConvertPrimitive(EnumType(members, unknown), v) != Ok(EnumMember(n))
  {
  }

  /** Null is null for every field; a number is no list and no structure, and a container is no scalar. */
  lemma ShapesTaken(f: Field, s: Scalar, v: Value)
    ensures ConvertField(f, Plain(Null)) == Ok(NullValue)
    ensures (s.UInt? || s.SInt? || s.Bool? || s.Float32? || s.Float64?) && (f.isList || f.element.StructType?) ==>
              ConvertField(f, Plain(s)) == Err(ValueError)
    ensures !f.isList && f.element.PrimitiveType? && !f.element.primitive.EnumType? && !v.Plain? ==>
              ConvertField(f, v) == Err(ValueError)
  {
  }

  /** An empty buffer is an empty dictionary. */
  lemma EmptyBuffer(desc: Descriptor)
    ensures TlvToDict(desc, []) == Ok(Struct(map[]))
  {
    NothingKnown(desc.fields);
    assert UnknownEntries(desc.fields, map[]) == map[];
    assert TagsToLabels(desc, Dict(map[])) == Ok(Struct(map[] + map[]));
  }

  /** A top-level element that is no dictionary is an error. */
  lemma NoDictionary(desc: Descriptor, w: Wire)
    requires CanWrite(w) && !HasPath(w) && w.tag.Anonymous? && (w.Leaf? || w.kind == Array)
    ensures TlvToDict(desc, Bytes(w)) == Err(AttributeError)
  {
    PrintIsBytes(w);
    hide Bytes, Print, Printable, CanWrite, ParseItems, TagsToLabels, HasPath;
    TopLevelElement(w);
    MeaningIsNoDictionary(w);
  }

  lemma MeaningIsNoDictionary(w: Wire)
    requires !HasPath(w) && (w.Leaf? || w.kind == Array)
    ensures !Meaning(w).Dict?
  {
    if w.Container? {
      StillAList([], w.members);
    }
  }

  lemma {:induction false} StillAList(done: seq<Value>, ws: seq<Wire>)
    requires !AnyHasPath(ws)
    ensures StoreAll(List(done), ws).List?
    decreases |ws|
  {
    if ws != [] {
      StillAList(done + [Meaning(ws[0])], ws[1..]);
    }
  }

  lemma {:induction false} NothingKnown(fields: seq<Field>)
    ensures KnownEntries(fields, Dict(map[])) == Ok(map[])
    decreases |fields|
  {
    if fields != [] {
      NothingKnown(fields[1..]);
    }
  }
}
