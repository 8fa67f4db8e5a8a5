/**
 The laws of the schema layer: what is written under one descriptor and read under the
 same or an older one.
 */
module SchemaLaws {
  import opened Wrappers
  import opened TlvFormat
  import opened Schema

  // ----- The wire elements of a dictionary mean its TLV value -----

  lemma {:induction false} ElementMeansValue(place: Option<Kind>, tag: Tag, t: ElementType, d: Data)
    requires ElementWire(place, tag, t, d).Ok?
    ensures var w := ElementWire(place, tag, t, d).value;
            w.tag == tag && !HasPath(w) && Meaning(w) == ElementValue(t, d)
    decreases d, 2
  {
    match t
    case PrimitiveType(_) =>
    case StructType(desc) =>
      StructMeansValue(desc.fields, d, map[]);
      assert map[] + StructValue(desc.fields, d) == StructValue(desc.fields, d);
  }

  lemma {:induction false} ListMeansValue(t: ElementType, items: seq<Data>, done: seq<Value>)
    requires ListWires(t, items).Ok?
    ensures var ws := ListWires(t, items).value;
            !AnyHasPath(ws) && StoreAll(List(done), ws) == List(done + ListValue(t, items))
    decreases items, 3
  {
    if items == [] {
      assert done + [] == done;
    } else {
      ElementMeansValue(Some(Array), Anonymous, t, items[0]);
      var first := ElementValue(t, items[0]);
      ListMeansValue(t, items[1..], done + [first]);
      StoreFirst(List(done), ElementWire(Some(Array), Anonymous, t, items[0]).value, ListWires(t, items[1..]).value);
      assert done + [first] + ListValue(t, items[1..]) == done + ListValue(t, items);
    }
  }

  lemma {:induction false} FieldMeansValue(f: Field, d: Data)
    requires !d.Missing? && FieldWires(f, d).Ok?
    ensures var ws := FieldWires(f, d).value;
            |ws| == 1 && ws[0].tag == f.tag && !HasPath(ws[0]) && Meaning(ws[0]) == FieldValue(f, d)
    decreases d, 3
  {
    if d.Many? {
      ListMeansValue(f.element, d.items, []);
      assert [] + ListValue(f.element, d.items) == ListValue(f.element, d.items);
    } else if !d.NullValue? {
      ElementMeansValue(Some(Structure), f.tag, f.element, d);
    }
  }

  lemma {:induction false} StructMeansValue(fields: seq<Field>, d: Data, done: map<Tag, Value>)
    requires d.Struct? && StructWires(fields, d).Ok?
    ensures var ws := StructWires(fields, d).value;
            !AnyHasPath(ws) && StoreAll(Dict(done), ws) == Dict(done + StructValue(fields, d))
    decreases d, 1, |fields|
  {
    hide FieldWires, EntryWires, FieldValue, Meaning, HasPath, AnyHasPath, StoreAll, MembersPrintable;
    if fields == [] {
      NothingStored(Dict(done));
      assert done + map[] == done;
    } else {
      var f, rest := fields[0], StructWires(fields[1..], d).value;
      EntryMeansValue(f, d);
      if Present(f, d) {
        var value := FieldValue(f, d.entries[Label(f.name)]);
        var w := EntryWires(f, d).value[0];
        StructMeansValue(fields[1..], d, done[f.tag := value]);
        StoreFirst(Dict(done), w, rest);
        assert StructWires(fields, d).value == [w] + rest;
        assert done[f.tag := value] + StructValue(fields[1..], d) == done + StructValue(fields, d);
      } else {
        StructMeansValue(fields[1..], d, done);
        assert StructWires(fields, d).value == rest;
      }
    }
  }

  lemma NothingStored(out: Value)
    ensures !AnyHasPath([]) && StoreAll(out, []) == out
  {
  }

  lemma {:induction false} EntryMeansValue(f: Field, d: Data)
    requires d.Struct? && EntryWires(f, d).Ok?
    ensures var ws := EntryWires(f, d).value;
            if Present(f, d) then
              |ws| == 1 && ws[0].tag == f.tag && !HasPath(ws[0]) && Meaning(ws[0]) == FieldValue(f, d.entries[Label(f.name)])
            else ws == []
    decreases d, 0
  {
    if Present(f, d) {
      FieldMeansValue(f, d.entries[Label(f.name)]);
    }
  }

  /** The TLV value holds exactly the present fields, each under its tag. */
  lemma {:induction false} StructValueAt(fields: seq<Field>, d: Data, tag: Tag)
    requires d.Struct? && DistinctFields(fields)
    ensures var f := GetFieldByTag(fields, tag);
            var m := StructValue(fields, d);
            && (tag in m <==> f.Some? && Present(f.value, d))
            && (tag in m ==> m[tag] == FieldValue(f.value, d.entries[Label(f.value.name)]))
  {
    if fields != [] {
      StructValueAt(fields[1..], d, tag);
      assert fields[0].tag.Context?;
      assert forall f :: f in fields[1..] ==> f.tag != fields[0].tag;
    }
  }

  // ----- Which dictionaries can be written -----

  lemma FitsIffWidth(s: Scalar)
    ensures AtomFits(s) <==> ScalarFits(s)
  {
  }

  lemma {:induction false} ElementEncodes(place: Option<Kind>, tag: Tag, t: ElementType, d: Data)
    ensures ElementWire(place, tag, t, d).Ok? <==> TagAllowed(place, tag) && ElementConforms(t, d)
    decreases d, 2
  {
    match t
    case PrimitiveType(p) =>
      if IsOfType(p, d) {
        FitsIffWidth(ScalarOf(d));
      }
    case StructType(desc) =>
      if d.Struct? {
        StructEncodes(desc.fields, d);
      }
  }

  lemma {:induction false} ListEncodes(t: ElementType, items: seq<Data>)
    ensures ListWires(t, items).Ok? <==> forall i :: 0 <= i < |items| ==> ElementConforms(t, items[i])
    decreases items, 3
  {
    if items != [] {
      ElementEncodes(Some(Array), Anonymous, t, items[0]);
      ListEncodes(t, items[1..]);
      assert forall i :: 0 < i < |items| ==> items[i] == items[1..][i - 1];
    }
  }

  lemma {:induction false} FieldEncodes(f: Field, d: Data)
    requires !d.Missing?
    ensures FieldWires(f, d).Ok? <==> TagAllowed(Some(Structure), f.tag) && ValueConforms(f, d)
    decreases d, 3
  {
    if d.Many? {
      ListEncodes(f.element, d.items);
    } else if !d.NullValue? {
      ElementEncodes(Some(Structure), f.tag, f.element, d);
    }
  }

  lemma {:induction false} StructEncodes(fields: seq<Field>, d: Data)
    requires d.Struct?
    ensures StructWires(fields, d).Ok? <==> forall i :: 0 <= i < |fields| ==> FieldConforms(fields[i], d)
    decreases d, 1, |fields|
  {
    hide EntryWires, FieldConforms;
    if fields != [] {
      EntryEncodes(fields[0], d);
      StructEncodes(fields[1..], d);
      assert forall i :: 0 < i < |fields| ==> fields[i] == fields[1..][i - 1];
    }
  }

  lemma {:induction false} EntryEncodes(f: Field, d: Data)
    requires d.Struct?
    ensures EntryWires(f, d).Ok? <==> FieldConforms(f, d)
    decreases d, 0
  {
    if Present(f, d) {
      FieldEncodes(f, d.entries[Label(f.name)]);
    }
  }

  /** A dictionary can be encoded if and only if it conforms to the descriptor. */
  lemma ConformingIsEncoded(desc: Descriptor, d: Data)
    requires d.Struct?
    ensures DictToTlv(desc, d).Ok? <==> Conforms(desc, d)
  {
    StructEncodes(desc.fields, d);
  }

  // ----- Reading it under an older descriptor -----

  lemma {:induction false} ElementViewed(t: ElementType, u: ElementType, place: Option<Kind>, tag: Tag, d: Data)
    requires ElementWire(place, tag, u, d).Ok? && OlderElement(t, u)
    requires u.StructType? ==> WellFormed(u.descriptor)
    ensures ConvertNonArray(t, ElementValue(u, d)) == Ok(ViewElement(t, u, d))
    decreases d, 2
  {
    if u.StructType? {
      assert WellFormed(u.descriptor);
      StructViewed(t.descriptor, u.descriptor, d);
    }
  }

  lemma {:induction false} ListViewed(t: ElementType, u: ElementType, items: seq<Data>)
    requires ListWires(u, items).Ok? && OlderElement(t, u)
    requires u.StructType? ==> WellFormed(u.descriptor)
    ensures ConvertList(t, ListValue(u, items)) == Ok(ViewList(t, u, items))
    decreases items, 3
  {
    if items != [] {
      ElementViewed(t, u, Some(Array), Anonymous, items[0]);
      ListViewed(t, u, items[1..]);
      assert ListValue(u, items)[1..] == ListValue(u, items[1..]);
    }
  }

  lemma {:induction false} FieldViewed(f: Field, g: Field, d: Data)
    requires !d.Missing? && FieldWires(g, d).Ok? && OlderField(f, Some(g)) && WellFormedField(g)
    ensures ConvertField(f, FieldValue(g, d)) == Ok(ViewField(f, g, d))
    decreases d, 3
  {
    if d.Many? {
      ListViewed(f.element, g.element, d.items);
    } else if !d.NullValue? {
      ElementViewed(f.element, g.element, Some(Structure), g.tag, d);
    }
  }

  lemma {:induction false} WiresPerField(fields: seq<Field>, d: Data, f: Field)
    requires d.Struct? && StructWires(fields, d).Ok? && f in fields && Present(f, d)
    ensures FieldWires(f, d.entries[Label(f.name)]).Ok?
  {
    if f != fields[0] {
      WiresPerField(fields[1..], d, f);
    }
  }

  lemma {:induction false} KnownViewed(fields: seq<Field>, writer: Descriptor, d: Data)
    requires d.Struct? && StructWires(writer.fields, d).Ok? && WellFormed(writer)
    requires forall i :: 0 <= i < |fields| ==> OlderField(fields[i], GetFieldByTag(writer.fields, fields[i].tag))
    ensures KnownEntries(fields, Dict(StructValue(writer.fields, d))) == Ok(KnownView(fields, writer, d))
    decreases d, 0, |fields|
  {
    if fields != [] {
      var f, g := fields[0], GetFieldByTag(writer.fields, fields[0].tag).value;
      KnownViewed(fields[1..], writer, d);
      StructValueAt(writer.fields, d, f.tag);
      if Present(g, d) {
        WiresPerField(writer.fields, d, g);
        assert OlderField(f, Some(g));
        FieldViewed(f, g, d.entries[Label(g.name)]);
      }
    }
  }

  lemma {:induction false} StructViewed(reader: Descriptor, writer: Descriptor, d: Data)
    requires d.Struct? && StructWires(writer.fields, d).Ok? && WellFormed(writer) && Older(reader, writer)
    ensures TagsToLabels(reader, Dict(StructValue(writer.fields, d))) == Ok(Struct(View(reader, writer, d)))
    decreases d, 1
  {
    KnownViewed(reader.fields, writer, d);
  }

  /**
   Schema evolution: every dictionary that conforms to `writer` can be written, and is read
   under any older descriptor; what the reader gets is the view of it.
   */
  lemma SchemaEvolution(reader: Descriptor, writer: Descriptor, d: Data)
    requires d.Struct? && WellFormed(writer) && Older(reader, writer)
    requires Conforms(writer, d)
    ensures DictToTlv(writer, d).Ok?
    ensures TlvToDict(reader, DictToTlv(writer, d).value) == Ok(Struct(View(reader, writer, d)))
  {
    hide StructWires, ParseItems, StructValue, TagsToLabels, View, Conforms;
    ConformingIsEncoded(writer, d);
    var w := Container(Anonymous, Structure, StructWires(writer.fields, d).value);
    var v := Dict(StructValue(writer.fields, d));
    StructMeansValue(writer.fields, d, map[]);
    assert map[] + StructValue(writer.fields, d) == StructValue(writer.fields, d);
    TopLevelElement(w);
    StructViewed(reader, writer, d);
  }

  /** A buffer of one anonymous element is read as a dictionary with that one entry. */
  lemma TopLevelElement(w: Wire)
    requires Printable(w) && !HasPath(w)
    ensures ParseItems(Print(w), Dict(map[])) == Collected(Dict(map[w.tag := Meaning(w)]), |Print(w)|)
  {
    PrintThenParse(w, []);
    ParseFirst(Print(w), [], Dict(map[]));
    assert Print(w) + [] == Print(w);
  }

  // ----- The same descriptor on both sides -----

  lemma {:induction false} OlderReflexive(desc: Descriptor)
    requires WellFormed(desc)
    ensures Older(desc, desc)
    decreases desc, 1
  {
    forall i | 0 <= i < |desc.fields|
      ensures OlderField(desc.fields[i], GetFieldByTag(desc.fields, desc.fields[i].tag))
    {
      var f := desc.fields[i];
      assert desc.fields decreases to f;
      FirstWithTag(desc.fields, f);
      OlderFieldReflexive(f);
    }
  }

  lemma {:induction false} OlderFieldReflexive(f: Field)
    requires WellFormedField(f)
    ensures OlderField(f, Some(f))
    decreases f, 0
  {
    assert f decreases to f.element;
    if f.element.StructType? {
      assert f.element decreases to f.element.descriptor;
      OlderReflexive(f.element.descriptor);
    }
  }

  lemma {:induction false} FirstWithTag(fields: seq<Field>, f: Field)
    requires DistinctFields(fields) && f in fields
    ensures GetFieldByTag(fields, f.tag) == Some(f) && GetFieldByLabel(fields, f.name) == Some(f)
  {
    if f != fields[0] {
      FirstWithTag(fields[1..], f);
    }
  }

  lemma {:induction false} ElementPruned(t: ElementType, place: Option<Kind>, tag: Tag, d: Data)
    requires ElementWire(place, tag, t, d).Ok? && (t.StructType? ==> WellFormed(t.descriptor))
    ensures ViewElement(t, t, d) == Prune(t, d)
    decreases d, 2
  {
    if t.StructType? {
      assert WellFormed(t.descriptor);
      StructPruned(t.descriptor, d);
    }
  }

  lemma {:induction false} ListPruned(t: ElementType, items: seq<Data>)
    requires ListWires(t, items).Ok? && (t.StructType? ==> WellFormed(t.descriptor))
    ensures ViewList(t, t, items) == seq(|items|, i requires 0 <= i < |items| => Prune(t, items[i]))
    decreases items, 3
  {
    if items != [] {
      ElementPruned(t, Some(Array), Anonymous, items[0]);
      ListPruned(t, items[1..]);
    }
  }

  lemma {:induction false} FieldPruned(f: Field, d: Data)
    requires !d.Missing? && FieldWires(f, d).Ok? && WellFormedField(f)
    ensures ViewField(f, f, d) == Prune(f.element, d)
    decreases d, 3
  {
    if d.Many? {
      ListPruned(f.element, d.items);
    } else if !d.NullValue? {
      ElementPruned(f.element, Some(Structure), f.tag, d);
    }
  }

  lemma PruneStep(fields: seq<Field>, d: Data)
    requires d.Struct? && DistinctFields(fields) && fields != []
    ensures var f, rest := fields[0], PruneEntries(fields[1..], d);
            PruneEntries(fields, d) ==
            if Present(f, d) then rest[Label(f.name) := Prune(f.element, d.entries[Label(f.name)])] else rest
  {
    assert GetFieldByLabel(fields[1..], fields[0].name).None?;
  }

  lemma {:induction false} KnownPruned(fields: seq<Field>, desc: Descriptor, d: Data)
    requires d.Struct? && StructWires(desc.fields, d).Ok? && WellFormed(desc) && DistinctFields(fields)
    requires forall f :: f in fields ==> f in desc.fields
    ensures KnownView(fields, desc, d) == PruneEntries(fields, d)
    decreases d, 0, |fields|
  {
    if fields != [] {
      var f, rest := fields[0], fields[1..];
      KnownPruned(rest, desc, d);
      FirstWithTag(desc.fields, f);
      PruneStep(fields, d);
      if Present(f, d) {
        WiresPerField(desc.fields, d, f);
        FieldPruned(f, d.entries[Label(f.name)]);
      }
    }
  }

  lemma {:induction false} StructPruned(desc: Descriptor, d: Data)
    requires d.Struct? && StructWires(desc.fields, d).Ok? && WellFormed(desc)
    ensures View(desc, desc, d) == PruneEntries(desc.fields, d)
    decreases d, 1
  {
    hide KnownView, PruneEntries, StructValue, StructWires;
    KnownPruned(desc.fields, desc, d);
    var m := StructValue(desc.fields, d);
    forall t | t in m
      ensures GetFieldByTag(desc.fields, t).Some?
    {
      StructValueAt(desc.fields, d, t);
    }
    assert UnknownEntries(desc.fields, m) == map[];
  }

  /**
   The schema round trip: under one descriptor every conforming dictionary comes back with
   exactly its `None`s dropped, at every depth, nulls as `NullValue` and lists in order.
   */
  lemma SchemaRoundTrip(desc: Descriptor, d: Data)
    requires d.Struct? && WellFormed(desc) && Conforms(desc, d)
    ensures DictToTlv(desc, d).Ok?
    ensures TlvToDict(desc, DictToTlv(desc, d).value) == Ok(Prune(StructType(desc), d))
  {
    hide StructWires, Conforms, TlvToDict, View, PruneEntries;
    OlderReflexive(desc);
    SchemaEvolution(desc, desc, d);
    StructPruned(desc, d);
  }

  /**
   An older reader gets the same value as the writer's own descriptor gives for every
   field whose type it knows in full, and every field it does not know raw under its tag.
   */
  lemma EvolutionKeepsKnownFields(reader: Descriptor, writer: Descriptor, d: Data, f: Field)
    requires d.Struct? && WellFormed(writer) && DistinctFields(reader.fields) && Older(reader, writer)
    requires Conforms(writer, d) && f in writer.fields && Present(f, d)
    ensures DictToTlv(writer, d).Ok?
    ensures var seen := TlvToDict(reader, DictToTlv(writer, d).value);
            && seen.Ok? && seen.value.Struct?
            && (f in reader.fields ==>
                  && Label(f.name) in seen.value.entries
                  && seen.value.entries[Label(f.name)] == Prune(f.element, d.entries[Label(f.name)]))
            && (GetFieldByTag(reader.fields, f.tag).None? ==>
                  && RawTag(f.tag) in seen.value.entries
                  && seen.value.entries[RawTag(f.tag)] == Raw(FieldValue(f, d.entries[Label(f.name)])))
  {
    hide StructValue, KnownView, StructWires, TlvToDict, Conforms;
    SchemaEvolution(reader, writer, d);
    FirstWithTag(writer.fields, f);
    StructValueAt(writer.fields, d, f.tag);
    if f in reader.fields {
      ViewAt(reader.fields, writer, d, f, f);
      WiresPerField(writer.fields, d, f);
      FieldPruned(f, d.entries[Label(f.name)]);
    }
  }

  /** An enum member that the reader's descriptor does not have arrives as its unknown value. */
  lemma UnknownEnumMember(reader: Descriptor, writer: Descriptor, d: Data, f: Field, g: Field)
    requires d.Struct? && WellFormed(writer) && DistinctFields(reader.fields) && Older(reader, writer) && Conforms(writer, d)
    requires f in reader.fields && g in writer.fields && f.tag == g.tag && Present(g, d)
    requires f.element.PrimitiveType? && f.element.primitive.EnumType? && d.entries[Label(g.name)].EnumMember?
    ensures DictToTlv(writer, d).Ok?
    ensures var p, n, seen := f.element.primitive, d.entries[Label(g.name)].n, TlvToDict(reader, DictToTlv(writer, d).value);
            && seen.Ok? && seen.value.Struct? && Label(f.name) in seen.value.entries
            && seen.value.entries[Label(f.name)] == EnumMember(if n in p.members then n else p.unknown)
  {
    hide StructValue, KnownView, StructWires, TlvToDict, Conforms;
    SchemaEvolution(reader, writer, d);
    FirstWithTag(writer.fields, g);
    ViewAt(reader.fields, writer, d, f, g);
  }

  lemma {:induction false} ViewAt(fields: seq<Field>, writer: Descriptor, d: Data, f: Field, g: Field)
    requires d.Struct? && DistinctFields(fields) && f in fields
    requires GetFieldByTag(writer.fields, f.tag) == Some(g) && Present(g, d)
    ensures Label(f.name) in KnownView(fields, writer, d)
    ensures KnownView(fields, writer, d)[Label(f.name)] == ViewField(f, g, d.entries[Label(g.name)])
  {
    if f != fields[0] {
      ViewAt(fields[1..], writer, d, f, g);
    }
  }
}
