/**
 `TLVWriter` and `TLVReader` of python_client/chip/tlv/__init__.py: a buffer that grows
 under a stack of open containers, and a cursor that runs over a fixed buffer.
 */
module TlvCodec {
  import opened Wrappers
  import opened TlvFormat

  datatype Outcome = Done | Raised(error: Error)

  lemma NextPrintable(kind: Kind, ws: seq<Wire>, i: nat)
    requires i < |ws| && MembersPrintable(kind, ws[..i])
    ensures MembersPrintable(kind, ws[..i + 1]) <==> TagAllowed(Some(kind), ws[i].tag) && Printable(ws[i])
  {
    var all := ws[..i + 1];
    assert all[i] == ws[i];
    assert forall k :: 0 <= k < i ==> all[k] == ws[..i][k];
  }

  lemma ConcatPrintable(kind: Kind, a: seq<Wire>, b: seq<Wire>)
    ensures MembersPrintable(kind, a + b) <==> MembersPrintable(kind, a) && MembersPrintable(kind, b)
  {
    assert forall i :: 0 <= i < |a| ==> (a + b)[i] == a[i];
    assert forall i :: 0 <= i < |b| ==> (a + b)[|a| + i] == b[i];
  }

  lemma {:induction false} PrintConcat(kind: Kind, a: seq<Wire>, b: seq<Wire>)
    requires MembersPrintable(kind, a) && MembersPrintable(kind, b) && MembersPrintable(kind, a + b)
    ensures PrintMembers(kind, a + b) == PrintMembers(kind, a) + PrintMembers(kind, b)
  {
    hide Print, Printable;
    if a == [] {
      assert a + b == b;
    } else {
      assert (a + b)[0] == a[0] && (a + b)[1..] == a[1..] + b;
      PrintConcat(kind, a[1..], b);
    }
  }

  lemma PrintOne(kind: Kind, w: Wire)
    ensures MembersPrintable(kind, [w]) <==> TagAllowed(Some(kind), w.tag) && Printable(w)
    ensures MembersPrintable(kind, [w]) ==> PrintMembers(kind, [w]) == Print(w)
  {
    assert [w][0] == w;
    assert [w][1..] == [];
  }

  /** One more member of a container: what the loop of `put` does to the buffer. */
  lemma NextPrinted(kind: Kind, ws: seq<Wire>, i: nat)
    requires i < |ws| && MembersPrintable(kind, ws[..i + 1])
    ensures MembersPrintable(kind, ws[..i])
    ensures PrintMembers(kind, ws[..i + 1]) == PrintMembers(kind, ws[..i]) + Print(ws[i])
  {
    hide MembersPrintable, PrintMembers, Print, Printable;
    assert ws[..i + 1] == ws[..i] + [ws[i]];
    ConcatPrintable(kind, ws[..i], [ws[i]]);
    PrintConcat(kind, ws[..i], [ws[i]]);
    PrintOne(kind, ws[i]);
  }

  lemma ContainerPrints(tag: Tag, kind: Kind, ws: seq<Wire>)
    ensures Printable(Container(tag, kind, ws)) <==> TagInRange(tag) && MembersPrintable(kind, ws)
    ensures Printable(Container(tag, kind, ws)) ==>
              Print(Container(tag, kind, ws)) ==
              Head(tag, ContainerType(kind)) + PrintMembers(kind, ws) + [END_OF_CONTAINER]
    ensures forall i :: 0 <= i <= |ws| && !MembersPrintable(kind, ws[..i]) ==> !MembersPrintable(kind, ws)
    ensures ws[..|ws|] == ws
  {
  }

  lemma {:induction false} DictMemberAt(v: Value, tags: seq<Tag>)
    requires v.Dict? && forall t :: t in tags ==> t in v.fields
    ensures |DictMembers(v, tags)| == |tags|
    ensures forall i :: 0 <= i < |tags| ==>
              && DictMembers(v, tags)[i] == WireOf(tags[i], v.fields[tags[i]])
              && (v decreases to v.fields[tags[i]])
  {
    if tags != [] {
      DictMemberAt(v, tags[1..]);
    }
  }

  lemma {:induction false} ListMemberAt(elements: seq<Value>)
    ensures |ListMembers(elements)| == |elements|
    ensures forall i :: 0 <= i < |elements| ==> ListMembers(elements)[i] == WireOf(Anonymous, elements[i])
  {
    if elements != [] {
      ListMemberAt(elements[1..]);
    }
  }

  lemma {:induction false} PathMemberAt(items: seq<Item>)
    ensures |PathMembers(items)| == |items|
    ensures forall i :: 0 <= i < |items| ==>
              && PathMembers(items)[i] == WireOf(items[i].tag, items[i].value)
              && (items decreases to items[i].value)
  {
    if items != [] {
      assert items decreases to items[0];
      assert items[0] decreases to items[0].value;
      PathMemberAt(items[1..]);
    }
  }

  class TlvWriter {
    var encoding: seq<Byte>
    /** Innermost open container first. */
    var containerStack: seq<Kind>

    constructor (encoding: seq<Byte>)
      ensures this.encoding == encoding && containerStack == []
    {
      this.encoding, containerStack := encoding, [];
    }

    function Enclosing(): Option<Kind>
      reads this
    {
      if containerStack == [] then None else Some(containerStack[0])
    }

    method EncodeControlAndTag(elementType: nat, tag: Tag, length: nat) returns (r: Result<seq<Byte>>)
      requires elementType < 0x20
      ensures ControlByte(elementType, length) < 0x20
      ensures r.Ok? <==> TagAllowed(Enclosing(), tag) || (elementType == END_OF_CONTAINER && tag.Anonymous?)
      ensures r.Ok? ==> TagInRange(tag) && r.value == Head(tag, ControlByte(elementType, length))
      ensures r.Err? ==> r.error == ValueError
    {
      var controlByte := ControlByte(elementType, length);
      match tag
      case Anonymous =>
        if elementType != END_OF_CONTAINER && |containerStack| != 0 && containerStack[0] == Structure {
          return Err(ValueError);
        }
        return Ok([controlByte]);
      case Context(number) =>
        if number < 0 || number > UINT8_MAX {
          return Err(ValueError);
        }
        if |containerStack| == 0 {
          return Err(ValueError);
        }
        if containerStack[0] == Array {
          return Err(ValueError);
        }
        return Ok([TAG_CONTEXT_SPECIFIC + controlByte, number]);
    }

    /** What each scalar `put` promises: all of the element or nothing. */
    twostate predicate Wrote(tag: Tag, s: Scalar, r: Outcome)
      reads this
    {
      && containerStack == old(containerStack)
      && (r == Done <==> TagAllowed(old(Enclosing()), tag) && ScalarFits(s))
      && (r == Done ==> encoding == old(encoding) + Print(Leaf(tag, s)))
      && (r != Done ==> r == Raised(ValueError) && encoding == old(encoding))
    }

    /**
     What putting a whole value promises: it succeeds exactly on a printable element in a
     place where its tag is allowed, and then the buffer has grown by that one element and
     the container stack is as before.
     */
    twostate predicate Appended(w: Wire, r: Outcome)
      reads this
    {
      && (r == Done <==> TagAllowed(old(Enclosing()), w.tag) && Printable(w))
      && (r == Done ==> encoding == old(encoding) + Print(w) && containerStack == old(containerStack))
      && (r != Done ==> r == Raised(ValueError) && old(encoding) <= encoding)
    }

    /** Control byte, tag and payload of a scalar whose payload is ready. */
    method Extend(elementType: nat, tag: Tag, length: nat, ghost s: Scalar, payload: seq<Byte>) returns (r: Outcome)
      requires elementType < 0x18 && ScalarFits(s)
      requires ControlByte(elementType, length) == ScalarControl(s) && payload == ScalarPayload(s)
      modifies this
      ensures Wrote(tag, s, r)
    {
      var controlAndTag := EncodeControlAndTag(elementType, tag, length);
      if controlAndTag.Err? {
        return Raised(controlAndTag.error);
      }
      encoding := encoding + controlAndTag.value;
      encoding := encoding + payload;
      return Done;
    }

    method PutSignedInt(tag: Tag, i: int) returns (r: Outcome)
      modifies this
      ensures Wrote(tag, SInt(i), r)
    {
      var width := SignedWidth(i);
      if width == 0 {
        return Raised(ValueError);
      }
      Spans();
      var packed := LittleEndian(Unsigned(i, width), width);
      r := Extend(TYPE_SIGNED_INTEGER, tag, |packed|, SInt(i), packed);
    }

    method PutUnsignedInt(tag: Tag, n: int) returns (r: Outcome)
      modifies this
      ensures n >= 0 ==> Wrote(tag, UInt(n), r)
      ensures n < 0 ==> r == Raised(ValueError) && encoding == old(encoding) && containerStack == old(containerStack)
    {
      var width := UnsignedWidth(n);
      if width == 0 {
        return Raised(ValueError);
      }
      var packed := LittleEndian(n, width);
      r := Extend(TYPE_UNSIGNED_INTEGER, tag, |packed|, UInt(n), packed);
    }

    method PutFloat(tag: Tag, raw: Raw4) returns (r: Outcome)
      modifies this
      ensures Wrote(tag, Float32(raw), r)
    {
      r := Extend(TYPE_FLOATING_POINT, tag, |raw|, Float32(raw), raw);
    }

    method PutDouble(tag: Tag, raw: Raw8) returns (r: Outcome)
      modifies this
      ensures Wrote(tag, Float64(raw), r)
    {
      r := Extend(TYPE_FLOATING_POINT, tag, |raw|, Float64(raw), raw);
    }

    method PutString(tag: Tag, utf8: seq<Byte>) returns (r: Outcome)
      modifies this
      ensures Wrote(tag, Text(utf8), r)
    {
      var width := UnsignedWidth(|utf8|);
      if width == 0 {
        return Raised(ValueError);
      }
      r := Extend(TYPE_UTF8_STRING, tag, width, Text(utf8), LittleEndian(|utf8|, width) + utf8);
    }

    method PutBytes(tag: Tag, data: seq<Byte>) returns (r: Outcome)
      modifies this
      ensures Wrote(tag, Octets(data), r)
    {
      var width := UnsignedWidth(|data|);
      if width == 0 {
        return Raised(ValueError);
      }
      r := Extend(TYPE_BYTE_STRING, tag, width, Octets(data), LittleEndian(|data|, width) + data);
    }

    method PutBool(tag: Tag, flag: bool) returns (r: Outcome)
      modifies this
      ensures Wrote(tag, Bool(flag), r)
    {
      r := Extend(if flag then TYPE_BOOLEAN + 1 else TYPE_BOOLEAN, tag, 0, Bool(flag), []);
    }

    method PutNull(tag: Tag) returns (r: Outcome)
      modifies this
      ensures Wrote(tag, Null, r)
    {
      r := Extend(TYPE_NULL, tag, 0, Null, []);
    }

    method StartContainer(tag: Tag, kind: Kind) returns (r: Outcome)
      modifies this
      ensures r == Done <==> TagAllowed(old(Enclosing()), tag)
      ensures r == Done ==> && encoding == old(encoding) + Head(tag, ContainerType(kind))
                            && containerStack == [kind] + old(containerStack)
      ensures r != Done ==> && r == Raised(ValueError) && encoding == old(encoding)
                            && containerStack == old(containerStack)
    {
      var controlAndTag := EncodeControlAndTag(ContainerType(kind), tag, 0);
      if controlAndTag.Err? {
        return Raised(controlAndTag.error);
      }
      encoding := encoding + controlAndTag.value;
      containerStack := [kind] + containerStack;
      return Done;
    }

    method EndContainer()
      requires containerStack != []
      modifies this
      ensures encoding == old(encoding) + [END_OF_CONTAINER]
      ensures containerStack == old(containerStack)[1..]
    {
      containerStack := containerStack[1..];
      var controlAndTag := EncodeControlAndTag(END_OF_CONTAINER, Anonymous, 0);
      encoding := encoding + controlAndTag.value;
    }

    method PutScalar(tag: Tag, s: Scalar) returns (r: Outcome)
      modifies this
      ensures Wrote(tag, s, r)
    {
      match s
      case Null => r := PutNull(tag);
      case Bool(flag) => r := PutBool(tag, flag);
      case UInt(n) => r := PutUnsignedInt(tag, n);
      case SInt(i) => r := PutSignedInt(tag, i);
      case Text(utf8) => r := PutString(tag, utf8);
      case Octets(data) => r := PutBytes(tag, data);
      case Float32(raw) => r := PutFloat(tag, raw);
      case Float64(raw) => r := PutDouble(tag, raw);
    }

    method Put(tag: Tag, v: Value) returns (r: Outcome)
      modifies this
      ensures Appended(WireOf(tag, v), r)
      decreases v, 1
    {
      hide SortedTags, Print;
      match v
      case Plain(s) =>
        r := PutScalar(tag, s);
      case Dict(fields) =>
        var tags := SortedTags(fields.Keys);
        DictMemberAt(v, tags);
        var items := seq(|tags|, i requires 0 <= i < |tags| => Item(tags[i], fields[tags[i]]));
        r := PutContainer(tag, Structure, items, v, DictMembers(v, tags));
      case List(elements) =>
        ListMemberAt(elements);
        var items := seq(|elements|, i requires 0 <= i < |elements| => Item(Anonymous, elements[i]));
        r := PutContainer(tag, Array, items, v, ListMembers(elements));
      case TlvList(items) =>
        PathMemberAt(items);
        r := PutContainer(tag, Path, items, v, PathMembers(items));
    }

    /** The three container branches of `put`: the start, a loop over the members, the end. */
    method PutContainer(tag: Tag, kind: Kind, items: seq<Item>, ghost v: Value, ghost ws: seq<Wire>)
      returns (r: Outcome)
      requires |ws| == |items|
      requires forall i :: 0 <= i < |items| ==>
                 ws[i] == WireOf(items[i].tag, items[i].value) && (v decreases to items[i].value)
      modifies this
      ensures Appended(Container(tag, kind, ws), r)
      decreases v, 0
    {
      ContainerPrints(tag, kind, ws);
      r := StartContainer(tag, kind);
      if r != Done {
        return;
      }
      ghost var start := encoding;
      for i := 0 to |items|
        invariant MembersPrintable(kind, ws[..i])
        invariant encoding == start + PrintMembers(kind, ws[..i])
        invariant r == Done && containerStack == [kind] + old(containerStack)
      {
        r := PutMember(kind, items[i], start, ws, i);
        if r != Done {
          return;
        }
      }
      EndContainer();
    }

    /** One turn of the loop above: the `i`th member, after `start` and the members before it. */
    method PutMember(kind: Kind, item: Item, ghost start: seq<Byte>, ghost ws: seq<Wire>, ghost i: nat)
      returns (r: Outcome)
      requires i < |ws| && ws[i] == WireOf(item.tag, item.value) && MembersPrintable(kind, ws[..i])
      requires Enclosing() == Some(kind) && encoding == start + PrintMembers(kind, ws[..i])
      modifies this
      ensures r == Done <==> MembersPrintable(kind, ws[..i + 1])
      ensures r == Done ==> && encoding == start + PrintMembers(kind, ws[..i + 1])
                            && containerStack == old(containerStack)
      ensures r != Done ==> r == Raised(ValueError) && old(encoding) <= encoding
      decreases item.value, 2
    {
      hide WireOf, Print;
      NextPrintable(kind, ws, i);
      r := Put(item.tag, item.value);
      if r == Done {
        NextPrinted(kind, ws, i);
      }
    }
  }

  class TlvReader {
    const tlv: seq<Byte>
    var bytesRead: nat

    constructor (tlv: seq<Byte>)
      ensures this.tlv == tlv && bytesRead == 0
    {
      this.tlv, bytesRead := tlv, 0;
    }

    /** `tlv[bytesRead:]`. */
    function Rest(): seq<Byte>
      reads this
    {
      Drop(tlv, bytesRead)
    }

    /** `struct.unpack("<B", tlv[bytesRead : bytesRead + 1])`, which fails on an empty slice. */
    method UnpackByte() returns (r: Result<Byte>)
      ensures r == if Rest() == [] then Err(StructError) else Ok(Rest()[0])
    {
      if bytesRead < |tlv| {
        return Ok(tlv[bytesRead]);
      }
      return Err(StructError);
    }

    method DecodeControlAndTag() returns (r: Result<(nat, Tag)>)
      requires Rest() != []
      modifies this
      ensures var input := old(Rest());
              var tagged := input[0] / 32 == 1;
              if tagged && |input| < 2 then r == Err(StructError)
              else && r == Ok((input[0] % 32, if tagged then Context(input[1]) else Anonymous))
                   && bytesRead == old(bytesRead) + (if tagged then 2 else 1)
    {
      var control := UnpackByte();
      var controlByte := control.value;
      var tagControl, elementType := controlByte / 32 * 32, controlByte % 32;
      bytesRead := bytesRead + 1;
      if tagControl == TAG_CONTEXT_SPECIFIC {
        var number := UnpackByte();
        if number.Err? {
          return Err(number.error);
        }
        bytesRead := bytesRead + 1;
        return Ok((elementType, Context(number.value)));
      }
      return Ok((elementType, Anonymous));
    }

    method DecodeVal(elementType: nat) returns (r: Result<Value>)
      modifies this
      ensures match ParseValue(elementType, old(Rest()))
              case Err(e) => r == Err(e)
              case Ok((v, used)) => r == Ok(v) && bytesRead == old(bytesRead) + used
      decreases |Rest()|, 2
    {
      if elementType == TYPE_STRUCTURE {
        r := GetItems(Dict(map[]));
      } else if elementType == TYPE_ARRAY {
        r := GetItems(List([]));
      } else if elementType == END_OF_CONTAINER {
        return Ok(Plain(Null));
      } else {
        var scalar := ParseScalar(elementType, Rest());
        match scalar
        case Err(e) => return Err(e);
        case Ok((s, used)) =>
          bytesRead := bytesRead + used;
          return Ok(Plain(s));
      }
    }

    /** One `decoding` record of the loop below: control byte, tag and value. */
    method DecodeElement() returns (r: Result<(nat, Tag, Value)>)
      requires Rest() != []
      modifies this
      ensures match ParseElement(old(Rest()))
              case Failed(e) => r == Err(e)
              case EndMarker(used) =>
                r.Ok? && r.value.0 == END_OF_CONTAINER && bytesRead == old(bytesRead) + used
              case Element(tag, v, used) =>
                r.Ok? && r.value.0 != END_OF_CONTAINER && (r.value.1, r.value.2) == (tag, v)
                && bytesRead == old(bytesRead) + used
      decreases |Rest()|, 0
    {
      ghost var input := Rest();
      var control := DecodeControlAndTag();
      if control.Err? {
        return Err(control.error);
      }
      var (elementType, tag) := control.value;
      assert Rest() == input[bytesRead - old(bytesRead)..];
      var value := DecodeVal(elementType);
      if value.Err? {
        return Err(value.error);
      }
      return Ok((elementType, tag, value.value));
    }

    /**
     The `_get` loop. It ends on every buffer, because each element moves the cursor, and
     returns what `ParseItems` says with the cursor behind the end marker.
     */
    method GetItems(into: Value) returns (r: Result<Value>)
      modifies this
      ensures var all := ParseItems(old(Rest()), into);
              if all.Broken? then r == Err(all.error) else r == Ok(all.out) && bytesRead == old(bytesRead) + all.used
      decreases |Rest()|, 1
    {
      hide ParseElement, ParseItems, Store;
      var out := into;
      while Rest() != []
        invariant old(bytesRead) <= bytesRead
        invariant |Rest()| <= |old(Rest())|
        invariant ParseItems(old(Rest()), into) == Advance(bytesRead - old(bytesRead), ParseItems(Rest(), out))
        decreases |Rest()|
      {
        ghost var input, before := Rest(), bytesRead;
        NextItem(input, out);
        var decoding := DecodeElement();
        if decoding.Err? {
          return Err(decoding.error);
        }
        assert Rest() == Drop(input, bytesRead - before);
        var (elementType, tag, value) := decoding.value;
        if elementType == END_OF_CONTAINER {
          return Ok(out);
        }
        out := Store(out, tag, value);
      }
      NoMoreItems(out);
      return Ok(out);
    }

    /** Top level: a fresh dictionary, the one anonymous element under the key "Any". */
    method Get() returns (r: Result<Value>)
      modifies this
      ensures var all := ParseItems(old(Rest()), Dict(map[]));
              if all.Broken? then r == Err(all.error) else r == Ok(all.out) && bytesRead == old(bytesRead) + all.used
    {
      r := GetItems(Dict(map[]));
    }
  }

  /** One turn of the `_get` loop. */
  lemma NextItem(input: seq<Byte>, out: Value)
    requires input != []
    ensures var p, all := ParseElement(input), ParseItems(input, out);
            && (p.Failed? ==> all == Broken(p.error))
            && (p.EndMarker? ==> all == Collected(out, p.used))
            && (p.Element? ==> all == Advance(p.used, ParseItems(Drop(input, p.used), Store(out, p.tag, p.value))))
  {
    hide ParseElement, Store;
  }

  lemma NoMoreItems(out: Value)
    ensures ParseItems([], out) == Collected(out, 0)
  {
  }
}
