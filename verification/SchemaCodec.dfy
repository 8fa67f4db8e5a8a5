/**
 The schema layer's operations as ClusterObjects.py runs them: fields pushed one by one
 into a TLV writer, and a tag dictionary walked entry by entry into a label dictionary.
 */
module SchemaCodec {
  import opened Wrappers
  import opened TlvFormat
  import opened TlvCodec
  import opened Schema
  import opened SchemaLaws

  /** Putting one element: it is appended, or its error raised. */
  twostate predicate AppendedOne(writer: TlvWriter, w: Result<Wire>, r: Outcome)
    reads writer
  {
    && r == (if w.Ok? then Done else Raised(w.error))
    && (w.Ok? ==> && Printable(w.value) && writer.encoding == old(writer.encoding) + Print(w.value)
                  && writer.containerStack == old(writer.containerStack))
  }

  /** Putting the members `ws` of a container: they are appended in order, or the first error is raised. */
  twostate predicate AppendedAll(writer: TlvWriter, kind: Kind, ws: Result<seq<Wire>>, r: Outcome)
    reads writer
  {
    && r == (if ws.Ok? then Done else Raised(ws.error))
    && (ws.Ok? ==> && MembersPrintable(kind, ws.value)
                   && writer.encoding == old(writer.encoding) + PrintMembers(kind, ws.value)
                   && writer.containerStack == old(writer.containerStack))
  }

  /** Elements already put, followed by those still to come. */
  function PutBefore(done: seq<Wire>, rest: Result<seq<Wire>>): Result<seq<Wire>> {
    Join(Ok(done), rest)
  }

  /** One turn of a loop that puts elements: the next ones are appended, or their error ends it. */
  lemma PutStep(kind: Kind, done: seq<Wire>, here: Result<seq<Wire>>, rest: Result<seq<Wire>>)
    requires MembersPrintable(kind, done) && (here.Ok? ==> MembersPrintable(kind, here.value))
    ensures if here.Ok? then
              && MembersPrintable(kind, done + here.value)
              && PrintMembers(kind, done + here.value) == PrintMembers(kind, done) + PrintMembers(kind, here.value)
              && PutBefore(done, Join(here, rest)) == PutBefore(done + here.value, rest)
            else
              PutBefore(done, Join(here, rest)) == Err(here.error)
  {
    hide MembersPrintable, PrintMembers;
    if here.Ok? {
      ConcatPrintable(kind, done, here.value);
      PrintConcat(kind, done, here.value);
      assert rest.Ok? ==> done + (here.value + rest.value) == done + here.value + rest.value;
    }
  }

  lemma Nothing(kind: Kind)
    ensures MembersPrintable(kind, []) && PrintMembers(kind, []) == []
  {
  }

  lemma PutBeforeNothing(rest: Result<seq<Wire>>)
    ensures PutBefore([], rest) == rest
  {
    assert rest.Ok? ==> [] + rest.value == rest.value;
  }

  method PutSingleElement(tag: Tag, t: ElementType, d: Data, writer: TlvWriter) returns (r: Outcome)
    modifies writer
    ensures AppendedOne(writer, ElementWire(old(writer.Enclosing()), tag, t, d), r)
    decreases d, 2
  {
    match t
    case StructType(desc) =>
      if !d.Struct? {
        return Raised(ValueError);
      }
      r := DictToTlvWithWriter(desc, tag, d, writer);
    case PrimitiveType(p) =>
      if !IsOfType(p, d) {
        return Raised(ValueError);
      }
      r := writer.Put(tag, Plain(ScalarOf(d)));
  }

  /** The branch of `PutFieldToTLV` for a value of `None`, which is also what a missing key gives. */
  method PutNone(f: Field, writer: TlvWriter) returns (r: Outcome)
    ensures AppendedAll(writer, Structure, Absent(f), r)
  {
    Nothing(Structure);
    return if f.optional then Done else Raised(ValueError);
  }

  /** A single value for a list field reaches `issubclass` with the list type, which raises TypeError. */
  method PutField(f: Field, d: Data, writer: TlvWriter) returns (r: Outcome)
    requires writer.Enclosing() == Some(Structure)
    modifies writer
    ensures AppendedAll(writer, Structure, FieldWires(f, d), r)
    decreases d, 3
  {
    hide MembersPrintable, PrintMembers, Print, Printable, ElementWire, ListWires;
    if d.NullValue? {
      if !f.nullable {
        return Raised(ValueError);
      }
      r := writer.Put(f.tag, Plain(Null));
      NullElement(f.tag);
    } else if d.Missing? {
      r := PutNone(f, writer);
    } else if d.Many? {
      r := PutListField(f, d.items, writer);
    } else {
      if f.isList {
        return Raised(TypeError);
      }
      r := PutSingleElement(f.tag, f.element, d, writer);
      ghost var w := ElementWire(Some(Structure), f.tag, f.element, d);
      if w.Ok? {
        PrintOne(Structure, w.value);
      }
    }
  }

  lemma NullElement(tag: Tag)
    ensures WireOf(tag, Plain(Null)) == Leaf(tag, Null)
    ensures Printable(Leaf(tag, Null)) <==> TagInRange(tag)
    ensures MembersPrintable(Structure, [Leaf(tag, Null)]) <==> TagAllowed(Some(Structure), tag)
    ensures TagAllowed(Some(Structure), tag) ==> PrintMembers(Structure, [Leaf(tag, Null)]) == Print(Leaf(tag, Null))
  {
    PrintOne(Structure, Leaf(tag, Null));
  }

  lemma ContainerElement(place: Kind, tag: Tag, kind: Kind, ws: seq<Wire>)
    requires TagAllowed(Some(place), tag) && MembersPrintable(kind, ws)
    ensures var w := Container(tag, kind, ws);
            && Printable(w) && MembersPrintable(place, [w]) && PrintMembers(place, [w]) == Print(w)
            && Print(w) == Head(tag, ContainerType(kind)) + PrintMembers(kind, ws) + [END_OF_CONTAINER]
  {
    hide MembersPrintable, PrintMembers, Head;
    PrintOne(place, Container(tag, kind, ws));
  }

  /** The list branch of `PutFieldToTLV`: a list for another field fails only after the array was started. */
  method PutListField(f: Field, items: seq<Data>, writer: TlvWriter) returns (r: Outcome)
    requires writer.Enclosing() == Some(Structure)
    modifies writer
    ensures AppendedAll(writer, Structure, FieldWires(f, Many(items)), r)
    decreases items, 4
  {
    hide ElementWire, ListWires, Join, PutBefore, Print, Printable, MembersPrintable, PrintMembers;
    Nothing(Array);
    r := writer.StartContainer(f.tag, Array);
    if r != Done {
      return;
    }
    if !f.isList {
      return Raised(ValueError);
    }
    ghost var all := ListWires(f.element, items);
    ghost var start, done: seq<Wire> := writer.encoding, [];
    PutBeforeNothing(all);
    assert items[0..] == items;
    for i := 0 to |items|
      invariant all == PutBefore(done, ListWires(f.element, items[i..]))
      invariant MembersPrintable(Array, done)
      invariant writer.encoding == start + PrintMembers(Array, done)
      invariant r == Done && writer.containerStack == [Array] + old(writer.containerStack)
    {
      ghost var w := ElementWire(Some(Array), Anonymous, f.element, items[i]);
      ghost var here := One(w);
      if w.Ok? {
        PrintOne(Array, w.value);
      }
      NextItem(f.element, items, i);
      PutStep(Array, done, here, ListWires(f.element, items[i + 1..]));
      r := PutSingleElement(Anonymous, f.element, items[i], writer);
      if r != Done {
        PutBeforeError(done, here, ListWires(f.element, items[i + 1..]));
        return;
      }
      done := done + here.value;
    }
    writer.EndContainer();
    NoItemsLeft(f.element, items, done);
    ContainerElement(Structure, f.tag, Array, done);
  }

  lemma PutBeforeError(done: seq<Wire>, here: Result<seq<Wire>>, rest: Result<seq<Wire>>)
    requires here.Err?
    ensures PutBefore(done, Join(here, rest)) == Err(here.error)
  {
  }

  lemma NextItem(t: ElementType, items: seq<Data>, i: nat)
    requires i < |items|
    ensures ListWires(t, items[i..]) ==
            Join(One(ElementWire(Some(Array), Anonymous, t, items[i])), ListWires(t, items[i + 1..]))
  {
    hide ElementWire;
    assert items[i..][0] == items[i] && items[i..][1..] == items[i + 1..];
  }

  lemma NoItemsLeft(t: ElementType, items: seq<Data>, done: seq<Wire>)
    ensures PutBefore(done, ListWires(t, items[|items|..])) == Ok(done)
  {
    assert items[|items|..] == [];
    assert done + [] == done;
  }

  /** One turn of the loop below: a missing key counts as None. */
  method PutEntry(f: Field, d: Data, writer: TlvWriter) returns (r: Outcome)
    requires d.Struct? && writer.Enclosing() == Some(Structure)
    modifies writer
    ensures AppendedAll(writer, Structure, EntryWires(f, d), r)
    decreases d, 0, 1
  {
    hide FieldWires, AppendedAll;
    if Label(f.name) in d.entries {
      r := PutField(f, d.entries[Label(f.name)], writer);
    } else {
      r := PutNone(f, writer);
    }
  }

  method DictToTlvWithWriter(desc: Descriptor, tag: Tag, d: Data, writer: TlvWriter) returns (r: Outcome)
    requires d.Struct?
    modifies writer
    ensures AppendedOne(writer, ElementWire(old(writer.Enclosing()), tag, StructType(desc), d), r)
    decreases d, 1
  {
    hide EntryWires, StructWires, Join, PutBefore, Print, Printable, MembersPrintable, PrintMembers;
    Nothing(Structure);
    r := writer.StartContainer(tag, Structure);
    if r != Done {
      return;
    }
    ghost var all := StructWires(desc.fields, d);
    ghost var start, done: seq<Wire> := writer.encoding, [];
    PutBeforeNothing(all);
    assert desc.fields[0..] == desc.fields;
    for i := 0 to |desc.fields|
      invariant all == PutBefore(done, StructWires(desc.fields[i..], d))
      invariant MembersPrintable(Structure, done)
      invariant writer.encoding == start + PrintMembers(Structure, done)
      invariant r == Done && writer.containerStack == [Structure] + old(writer.containerStack)
    {
      var f := desc.fields[i];
      ghost var here := EntryWires(f, d);
      NextField(desc.fields, i, d);
      PutStep(Structure, done, here, StructWires(desc.fields[i + 1..], d));
      r := PutEntry(f, d, writer);
      if r != Done {
        PutBeforeError(done, here, StructWires(desc.fields[i + 1..], d));
        return;
      }
      done := done + here.value;
    }
    writer.EndContainer();
    NoFieldsLeft(desc.fields, done, d);
    StructureElement(tag, done);
  }

  lemma StructureElement(tag: Tag, ws: seq<Wire>)
    requires TagInRange(tag) && MembersPrintable(Structure, ws)
    ensures var w := Container(tag, Structure, ws);
            && Printable(w)
            && Print(w) == Head(tag, TYPE_STRUCTURE) + PrintMembers(Structure, ws) + [END_OF_CONTAINER]
  {
  }

  lemma NextField(fields: seq<Field>, i: nat, d: Data)
    requires d.Struct? && i < |fields|
    ensures StructWires(fields[i..], d) == Join(EntryWires(fields[i], d), StructWires(fields[i + 1..], d))
  {
    hide EntryWires;
    assert fields[i..][0] == fields[i] && fields[i..][1..] == fields[i + 1..];
  }

  lemma NoFieldsLeft(fields: seq<Field>, done: seq<Wire>, d: Data)
    requires d.Struct?
    ensures PutBefore(done, StructWires(fields[|fields|..], d)) == Ok(done)
  {
    assert fields[|fields|..] == [];
    assert done + [] == done;
  }

  /** `DictToTLV`: the bytes of the dictionary, or the first error raised on the way. */
  method EncodeDict(desc: Descriptor, d: Data) returns (r: Result<seq<Byte>>)
    requires d.Struct?
    ensures r == DictToTlv(desc, d)
    ensures r.Ok? <==> Conforms(desc, d)
  {
    ConformingIsEncoded(desc, d);
    hide ElementWire, Conforms;
    var writer := new TlvWriter([]);
    var outcome := DictToTlvWithWriter(desc, Anonymous, d, writer);
    ghost var w := ElementWire(None, Anonymous, StructType(desc), d);
    if outcome == Done {
      assert [] + Print(w.value) == Print(w.value);
    }
    r := if outcome == Done then Ok(writer.encoding) else Err(outcome.error);
  }
}
