/**
 The decoding half of the schema layer: `TagDictToLabelDict` walks the entries of a tag
 dictionary in whatever order they come and fills a label dictionary.
 */
module SchemaReader {
  import opened Wrappers
  import opened TlvFormat
  import opened TlvCodec
  import opened Schema

  /** The result is what the specification says; which of several errors is raised is left open. */
  ghost predicate Agrees<T(!new)>(r: Result<T>, spec: Result<T>) {
    if spec.Ok? then r == spec else r.Err?
  }

  method ConvertNonArrayValue(t: ElementType, v: Value) returns (r: Result<Data>)
    requires t.StructType? ==> WellFormed(t.descriptor)
    ensures Agrees(r, ConvertNonArray(t, v))
    decreases v, 2
  {
    match t
    case PrimitiveType(p) =>
      r := ConvertPrimitive(p, v);
    case StructType(desc) =>
      if !v.Dict? {
        return Err(ValueError);
      }
      assert WellFormed(desc);
      r := TagDictToLabelDict(desc, v);
  }

  method ConvertListValue(t: ElementType, vs: seq<Value>) returns (r: Result<Data>)
    requires t.StructType? ==> WellFormed(t.descriptor)
    ensures Agrees(r, var items := ConvertList(t, vs); if items.Err? then Err(items.error) else Ok(Many(items.value)))
    decreases vs, 3
  {
    var done: seq<Data> := [];
    ghost var all := ConvertList(t, vs);
    assert vs[0..] == vs;
    assert all.Ok? ==> [] + all.value == all.value;
    for i := 0 to |vs|
      invariant var rest := ConvertList(t, vs[i..]);
                if rest.Ok? then all == Ok(done + rest.value) else all.Err?
    {
      assert vs[i..][1..] == vs[i + 1..];
      var item := ConvertNonArrayValue(t, vs[i]);
      if item.Err? {
        return Err(item.error);
      }
      ghost var rest := ConvertList(t, vs[i + 1..]);
      assert rest.Ok? ==> done + ([item.value] + rest.value) == done + [item.value] + rest.value;
      done := done + [item.value];
    }
    assert done + [] == done;
    return Ok(Many(done));
  }

  method ConvertFieldValue(f: Field, v: Value) returns (r: Result<Data>)
    requires WellFormedField(f)
    ensures Agrees(r, ConvertField(f, v))
    decreases v, 3
  {
    if v == Plain(Null) {
      return Ok(NullValue);
    }
    if f.isList {
      if !v.List? {
        return Err(ValueError);
      }
      r := ConvertListValue(f.element, v.elements);
    } else {
      r := ConvertNonArrayValue(f.element, v);
    }
  }

  /** The entries of `m` whose tags are in `tags`. */
  function Part(m: map<Tag, Value>, tags: set<Tag>): map<Tag, Value> {
    map t | t in m && t in tags :: m[t]
  }

  method TagDictToLabelDict(desc: Descriptor, v: Value) returns (r: Result<Data>)
    requires v.Dict? && WellFormed(desc)
    ensures Agrees(r, TagsToLabels(desc, v))
    decreases v, 1
  {
    hide ConvertField, UnknownEntries;
    var ret: map<Key, Data> := map[];
    var rest := v.fields.Keys;
    ghost var seen: set<Tag> := {};
    NothingSeen(desc, v.fields);
    while rest != {}
      invariant rest == v.fields.Keys - seen && seen <= v.fields.Keys
      invariant TagsToLabels(desc, Dict(Part(v.fields, seen))) == Ok(Struct(ret))
      decreases |rest|
    {
      var tag :| tag in rest;
      rest := rest - {tag};
      var value := v.fields[tag];
      var f := GetFieldByTag(desc.fields, tag);
      TagSeen(desc, v.fields, seen, tag, ret);
      if f.None? {
        ret := ret[RawTag(tag) := Raw(value)];
      } else {
        assert WellFormedField(f.value);
        var item := ConvertFieldValue(f.value, value);
        if item.Err? {
          KnownFails(desc.fields, v, f.value);
          return Err(item.error);
        }
        ret := ret[Label(f.value.name) := item.value];
      }
      seen := seen + {tag};
    }
    assert seen == v.fields.Keys;
    assert Part(v.fields, seen) == v.fields;
    return Ok(Struct(ret));
  }

  lemma {:induction false} NothingKnown(fields: seq<Field>)
    ensures KnownEntries(fields, Dict(map[])) == Ok(map[])
  {
    if fields != [] {
      NothingKnown(fields[1..]);
    }
  }

  lemma NothingSeen(desc: Descriptor, m: map<Tag, Value>)
    ensures TagsToLabels(desc, Dict(Part(m, {}))) == Ok(Struct(map[]))
  {
    NothingKnown(desc.fields);
    assert Part(m, {}) == map[];
    assert UnknownEntries(desc.fields, map[]) == map[];
  }

  lemma {:induction false} KnownFails(fields: seq<Field>, v: Value, f: Field)
    requires v.Dict? && f in fields && f.tag in v.fields && ConvertField(f, v.fields[f.tag]).Err?
    ensures KnownEntries(fields, v).Err?
  {
    if f != fields[0] {
      KnownFails(fields[1..], v, f);
    }
  }

  lemma Commute(m: map<Key, Data>, k: Key, x: Data, l: Key, y: Result<Data>)
    requires k != l
    ensures y.Ok? ==> m[k := x][l := y.value] == m[l := y.value][k := x]
  {
  }

  /** One more tag: nothing changes for the known fields, or exactly its own field's entry does. */
  lemma {:induction false} KnownStep(fields: seq<Field>, m: map<Tag, Value>, tag: Tag, value: Value)
    requires DistinctFields(fields) && tag !in m && KnownEntries(fields, Dict(m)).Ok?
    ensures var f, before, after := GetFieldByTag(fields, tag), KnownEntries(fields, Dict(m)).value,
                                    KnownEntries(fields, Dict(m[tag := value]));
            if f.None? then after == Ok(before)
            else var item := ConvertField(f.value, value);
                 if item.Ok? then after == Ok(before[Label(f.value.name) := item.value]) else after.Err?
  {
    hide ConvertField;
    if fields != [] {
      assert fields[0].tag.Context?;
      KnownStep(fields[1..], m, tag, value);
      if fields[0].tag == tag {
        assert GetFieldByTag(fields[1..], tag).None?;
      } else if fields[0].tag in m && GetFieldByTag(fields, tag).Some? {
        var f, rest := GetFieldByTag(fields, tag).value, KnownEntries(fields[1..], Dict(m)).value;
        assert f in fields[1..];
        Commute(rest, Label(fields[0].name), ConvertField(fields[0], m[fields[0].tag]).value, Label(f.name),
                ConvertField(f, value));
      }
    }
  }

  lemma UnknownStep(fields: seq<Field>, m: map<Tag, Value>, tag: Tag, value: Value)
    requires tag !in m
    ensures UnknownEntries(fields, m[tag := value]) ==
            if GetFieldByTag(fields, tag).None? then UnknownEntries(fields, m)[RawTag(tag) := Raw(value)]
            else UnknownEntries(fields, m)
    ensures forall k :: k in UnknownEntries(fields, m) ==> k.RawTag?
  {
  }

  lemma TagSeen(desc: Descriptor, m: map<Tag, Value>, seen: set<Tag>, tag: Tag, ret: map<Key, Data>)
    requires DistinctFields(desc.fields) && tag in m && tag !in seen
    requires TagsToLabels(desc, Dict(Part(m, seen))) == Ok(Struct(ret))
    ensures var f, after := GetFieldByTag(desc.fields, tag), TagsToLabels(desc, Dict(Part(m, seen + {tag})));
            if f.None? then after == Ok(Struct(ret[RawTag(tag) := Raw(m[tag])]))
            else var item := ConvertField(f.value, m[tag]);
                 item.Ok? ==> after == Ok(Struct(ret[Label(f.value.name) := item.value]))
  {
    hide ConvertField, UnknownEntries, KnownEntries;
    var part, fields := Part(m, seen), desc.fields;
    assert Part(m, seen + {tag}) == part[tag := m[tag]];
    KnownStep(fields, part, tag, m[tag]);
    UnknownStep(fields, part, tag, m[tag]);
    var f, known, unknown := GetFieldByTag(fields, tag), KnownEntries(fields, Dict(part)).value, UnknownEntries(fields, part);
    if f.None? {
      assert known + unknown[RawTag(tag) := Raw(m[tag])] == (known + unknown)[RawTag(tag) := Raw(m[tag])];
    } else {
      var item := ConvertField(f.value, m[tag]);
      if item.Ok? {
        var key := Label(f.value.name);
        assert known[key := item.value] + unknown == (known + unknown)[key := item.value];
      }
    }
  }

  /** `TLVToDict`, with the reader of the codec. */
  method DecodeDict(desc: Descriptor, tlv: seq<Byte>) returns (r: Result<Data>)
    requires WellFormed(desc)
    ensures Agrees(r, TlvToDict(desc, tlv))
  {
    var reader := new TlvReader(tlv);
    assert reader.Rest() == tlv;
    var out := reader.Get();
    if out.Err? {
      return Err(out.error);
    }
    var v := if out.value.Dict? && Anonymous in out.value.fields then out.value.fields[Anonymous] else Dict(map[]);
    if !v.Dict? {
      return Err(AttributeError);
    }
    r := TagDictToLabelDict(desc, v);
  }
}
