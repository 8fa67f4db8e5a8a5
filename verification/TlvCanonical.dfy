/**
 Which buffers that the reader accepts are encodings,
 python_client/chip/tlv/__init__.py:81-257 against 271-376.

 `ElementEnd` looks at bytes only: it finds where an element of the writer's form ends, or
 that there is none. With `ordered`, structure members also have to come in the ascending
 order in which `put` writes a dictionary.
 */
module TlvCanonical {
  import opened Wrappers
  import opened TlvFormat
  import Sequences

  // ----- The writer's form, byte by byte -----

  /** No narrower format would hold the number. */
  predicate LeastUnsigned(n: nat, width: nat) {
    width == 1 || n >= Span(width / 2)
  }

  predicate LeastSigned(i: int, width: nat) {
    width == 1 || 2 * i >= Span(width / 2) || 2 * i + Span(width / 2) < 0
  }

  /** The length of the payload of a scalar element. */
  function PayloadEnd(elementType: nat, body: seq<Byte>): (end: Option<nat>)
    ensures end.Some? ==> end.value <= |body|
  {
    if elementType in {TYPE_NULL, TYPE_BOOLEAN, TYPE_BOOLEAN + 1} then Some(0)
    else if elementType == TYPE_FLOATING_POINT then (if |body| < 4 then None else Some(4))
    else if elementType == TYPE_FLOATING_POINT + 1 then (if |body| < 8 then None else Some(8))
    else if elementType < 0x08 || 0x0C <= elementType < 0x14 then
      var width := WidthOfCode(elementType % 4);
      if |body| < width then None
      else
        var n := FromLittleEndian(body[..width]);
        if elementType < 0x04 then (if LeastSigned(Signed(n, width), width) then Some(width) else None)
        else if !LeastUnsigned(n, width) then None
        else if elementType < 0x08 then Some(width)
        else if width + n <= |body| then Some(width + n)
        else None
    else None
  }

  /** The tag control is anonymous or context-specific, and the element ends inside the buffer. */
  function ElementEnd(ordered: bool, input: seq<Byte>): (end: Option<nat>)
    ensures end.Some? ==> 0 < end.value <= |input|
    decreases |input|, 0
  {
    if input == [] || input[0] >= 0x40 || |input| <= input[0] / 32 then None
    else
      var head, elementType := input[0] / 32 + 1, input[0] % 32;
      var end :=
        if elementType == TYPE_STRUCTURE then MembersEnd(ordered, Structure, -1, input[head..])
        else if elementType == TYPE_ARRAY then MembersEnd(ordered, Array, -1, input[head..])
        else PayloadEnd(elementType, input[head..]);
      if end.None? then None else Some(head + end.value)
  }

  /** Members up to the container's own end marker: tagged in a structure, above `last` if ordered; untagged in an array. */
  function MembersEnd(ordered: bool, kind: Kind, last: int, body: seq<Byte>): (end: Option<nat>)
    ensures end.Some? ==> end.value <= |body|
    decreases |body|, 1
  {
    if body == [] then None
    else if body[0] == END_OF_CONTAINER then Some(1)
    else if (kind == Structure) != (body[0] / 32 == 1) then None
    else
      var first := ElementEnd(ordered, body);
      if first.None? then None
      else
        var tag := if body[0] / 32 == 1 then Context(body[1]) else Anonymous;
        if ordered && kind == Structure && SortKey(tag) <= last then None
        else
          var more := MembersEnd(ordered, kind, SortKey(tag), body[first.value..]);
          if more.None? then None else Some(first.value + more.value)
  }

  /** The buffer starts with an element in the writer's form. */
  predicate Strict(input: seq<Byte>) {
    ElementEnd(false, input).Some?
  }

  /** And its structures have ascending tags. */
  predicate Canonical(input: seq<Byte>) {
    ElementEnd(true, input).Some?
  }

  // ----- Ascending members on the wire -----

  predicate Ascends(w: Wire)
    decreases w, 0
  {
    w.Container? ==> MembersAscend(w.kind, -1, w.members)
  }

  predicate MembersAscend(kind: Kind, last: int, ws: seq<Wire>)
    decreases ws, 1
  {
    ws != [] ==>
      && (kind == Structure ==> SortKey(ws[0].tag) > last)
      && Ascends(ws[0])
      && MembersAscend(kind, SortKey(ws[0].tag), ws[1..])
  }

  // ----- Scalars -----

  lemma {:induction false} LittleEndianOf(bytes: seq<Byte>)
    ensures FromLittleEndian(bytes) < Span(|bytes|)
    ensures LittleEndian(FromLittleEndian(bytes), |bytes|) == bytes
  {
    hide LittleEndian;
    if bytes == [] {
      NoBytes();
    } else {
      LittleEndianOf(bytes[1..]);
      LowByteFirst(bytes[0], FromLittleEndian(bytes[1..]), |bytes| - 1);
      assert bytes == [bytes[0]] + bytes[1..];
    }
  }

  lemma NoBytes()
    ensures LittleEndian(0, 0) == []
  {
  }

  lemma LowByteFirst(low: Byte, high: nat, width: nat)
    ensures LittleEndian(low + 256 * high, width + 1) == [low] + LittleEndian(high, width)
  {
    assert (low + 256 * high) / 256 == high && (low + 256 * high) % 256 == low;
  }

  /** The least width is the one the writer picks. */
  lemma LeastIsPicked(n: nat, width: nat)
    requires width in {1, 2, 4, 8} && n < Span(width)
    ensures LeastUnsigned(n, width) <==> UnsignedWidth(n) == width
  {
    Spans();
  }

  lemma LeastSignedIsPicked(n: nat, width: nat)
    requires width in {1, 2, 4, 8} && n < Span(width)
    ensures var i := Signed(n, width);
            && Unsigned(i, width) == n
            && (LeastSigned(i, width) <==> SignedWidth(i) == width)
  {
    Spans();
  }

  lemma ControlOfCode(elementType: nat)
    requires elementType < 0x08 || 0x0C <= elementType < 0x14
    ensures var width := WidthOfCode(elementType % 4);
            && width in {1, 2, 4, 8}
            && (elementType < 0x04 ==> ControlByte(TYPE_SIGNED_INTEGER, width) == elementType)
            && (0x04 <= elementType < 0x08 ==> ControlByte(TYPE_UNSIGNED_INTEGER, width) == elementType)
            && (0x0C <= elementType < 0x10 ==> ControlByte(TYPE_UTF8_STRING, width) == elementType)
            && (0x10 <= elementType ==> ControlByte(TYPE_BYTE_STRING, width) == elementType)
  {
  }

  /** A payload of the writer's form is the payload of what the reader makes of it. */
  lemma PayloadIsPrinted(elementType: nat, body: seq<Byte>) returns (s: Scalar)
    requires PayloadEnd(elementType, body).Some?
    ensures ScalarFits(s) && ScalarControl(s) == elementType
    ensures ScalarPayload(s) == body[..PayloadEnd(elementType, body).value]
  {
    hide Span, UnsignedWidth, SignedWidth, Signed, Unsigned, ControlByte, LittleEndian, FromLittleEndian, LeastUnsigned, LeastSigned;
    s := ParseScalar(elementType, body).value.0;
    if elementType < 0x08 || 0x0C <= elementType < 0x14 {
      var width := WidthOfCode(elementType % 4);
      var n := FromLittleEndian(body[..width]);
      ControlOfCode(elementType);
      LittleEndianOf(body[..width]);
      if elementType < 0x04 {
        LeastSignedIsPicked(n, width);
      } else {
        LeastIsPicked(n, width);
        assert elementType >= 0x08 ==> body[..width + n] == body[..width] + body[width..][..n];
      }
    } else {
      FloatControls();
    }
  }

  lemma FloatControls()
    ensures ControlByte(TYPE_FLOATING_POINT, 4) == TYPE_FLOATING_POINT
    ensures ControlByte(TYPE_FLOATING_POINT, 8) == TYPE_FLOATING_POINT + 1
  {
  }

  lemma PrintedPayloadEnds(s: Scalar, rest: seq<Byte>)
    requires ScalarFits(s)
    ensures PayloadEnd(ScalarControl(s), ScalarPayload(s) + rest) == Some(|ScalarPayload(s)|)
    ensures ScalarControl(s) < TYPE_STRUCTURE
  {
    hide Span, LittleEndian, FromLittleEndian, ControlByte, WidthOfCode, UnsignedWidth, SignedWidth, Signed, Unsigned, LeastUnsigned, LeastSigned;
    FloatControls();
    match s
    case UInt(n) => NumberEnds(TYPE_UNSIGNED_INTEGER, n, rest);
    case SInt(i) => SignedEnds(i, rest);
    case Text(utf8) =>
      assert ScalarPayload(s) + rest == LittleEndian(|utf8|, UnsignedWidth(|utf8|)) + (utf8 + rest);
      NumberEnds(TYPE_UTF8_STRING, |utf8|, utf8 + rest);
    case Octets(data) =>
      assert ScalarPayload(s) + rest == LittleEndian(|data|, UnsignedWidth(|data|)) + (data + rest);
      NumberEnds(TYPE_BYTE_STRING, |data|, data + rest);
    case Null =>
    case Bool(_) =>
    case Float32(_) =>
    case Float64(_) =>
  }

  lemma NumberEnds(elementType: nat, n: nat, rest: seq<Byte>)
    requires elementType in {TYPE_UNSIGNED_INTEGER, TYPE_UTF8_STRING, TYPE_BYTE_STRING} && UnsignedWidth(n) != 0
    ensures var width, control := UnsignedWidth(n), ControlByte(elementType, UnsignedWidth(n));
            var body := LittleEndian(n, width) + rest;
            && elementType <= control < elementType + 4 && WidthOfCode(control % 4) == width
            && FromLittleEndian(body[..width]) == n && LeastUnsigned(n, width)
  {
    WidthsFit(n);
    ControlBits(elementType, UnsignedWidth(n));
    NumberReadsBack(n, UnsignedWidth(n), rest);
    LeastIsPicked(n, UnsignedWidth(n));
  }

  lemma SignedEnds(i: int, rest: seq<Byte>)
    requires SignedWidth(i) != 0
    ensures var width := SignedWidth(i);
            var control, n := ControlByte(TYPE_SIGNED_INTEGER, width), Unsigned(i, width);
            && n >= 0 && control < 4 && WidthOfCode(control % 4) == width
            && FromLittleEndian((LittleEndian(n, width) + rest)[..width]) == n
            && Signed(n, width) == i && LeastSigned(i, width)
  {
    SignedWidthsFit(i);
    var width, n := SignedWidth(i), Unsigned(i, SignedWidth(i));
    ControlBits(TYPE_SIGNED_INTEGER, width);
    NumberReadsBack(n, width, rest);
    LeastSignedIsPicked(n, width);
  }

  // ----- Whole elements -----

  /** What ends as an element of the writer's form is the print of one. */
  lemma {:induction false} EndsIsPrinted(ordered: bool, input: seq<Byte>) returns (w: Wire)
    requires ElementEnd(ordered, input).Some?
    ensures Printable(w) && !HasPath(w) && (ordered ==> Ascends(w))
    ensures Print(w) == input[..ElementEnd(ordered, input).value]
    ensures w.tag == if input[0] / 32 == 1 then Context(input[1]) else Anonymous
    decreases |input|, 0
  {
    hide PayloadEnd, MembersEnd, ScalarControl, ScalarPayload, ScalarFits, PrintMembers, MembersPrintable, MembersAscend, AnyHasPath;
    var head, elementType, end := input[0] / 32 + 1, input[0] % 32, ElementEnd(ordered, input).value;
    var tag, body := if head == 2 then Context(input[1]) else Anonymous, input[head..];
    assert input[..end] == input[..head] + body[..end - head];
    assert input[..head] == Head(tag, elementType);
    if elementType == TYPE_STRUCTURE || elementType == TYPE_ARRAY {
      var kind := if elementType == TYPE_STRUCTURE then Structure else Array;
      var ws := MembersArePrinted(ordered, kind, -1, body);
      w := Container(tag, kind, ws);
      assert Head(tag, elementType) + (PrintMembers(kind, ws) + [END_OF_CONTAINER])
          == Head(tag, elementType) + PrintMembers(kind, ws) + [END_OF_CONTAINER];
    } else {
      var s := PayloadIsPrinted(elementType, body);
      w := Leaf(tag, s);
    }
  }

  lemma {:induction false} MembersArePrinted(ordered: bool, kind: Kind, last: int, body: seq<Byte>) returns (ws: seq<Wire>)
    requires kind != Path && MembersEnd(ordered, kind, last, body).Some?
    ensures MembersPrintable(kind, ws) && !AnyHasPath(ws) && (ordered ==> MembersAscend(kind, last, ws))
    ensures PrintMembers(kind, ws) + [END_OF_CONTAINER] == body[..MembersEnd(ordered, kind, last, body).value]
    decreases |body|, 1
  {
    hide ElementEnd, Print, Printable, PrintMembers, HasPath, Ascends;
    if body[0] == END_OF_CONTAINER {
      ws := [];
      NothingPrinted(kind);
      assert body[..1] == [] + [END_OF_CONTAINER];
    } else {
      var k := ElementEnd(ordered, body).value;
      var w := EndsIsPrinted(ordered, body);
      var rest := body[k..];
      var more := MembersArePrinted(ordered, kind, SortKey(w.tag), rest);
      var m := MembersEnd(ordered, kind, SortKey(w.tag), rest).value;
      ws := [w] + more;
      MemberAdded(kind, w, more);
      JoinedPrints(body, k, m, Print(w), PrintMembers(kind, more));
    }
  }

  lemma NothingPrinted(kind: Kind)
    ensures MembersPrintable(kind, []) && PrintMembers(kind, []) == []
  {
  }

  lemma JoinedPrints(body: seq<Byte>, k: nat, m: nat, first: seq<Byte>, more: seq<Byte>)
    requires k + m <= |body| && first == body[..k] && more + [END_OF_CONTAINER] == body[k..][..m]
    ensures first + more + [END_OF_CONTAINER] == body[..k + m]
  {
    assert body[..k + m] == body[..k] + body[k..][..m];
    assert first + more + [END_OF_CONTAINER] == first + (more + [END_OF_CONTAINER]);
  }

  lemma MemberAdded(kind: Kind, w: Wire, more: seq<Wire>)
    requires TagAllowed(Some(kind), w.tag) && Printable(w) && MembersPrintable(kind, more)
    ensures MembersPrintable(kind, [w] + more)
    ensures ([w] + more)[1..] == more
    ensures PrintMembers(kind, [w] + more) == Print(w) + PrintMembers(kind, more)
  {
    hide Print, Printable;
    var ws := [w] + more;
    assert ws[1..] == more;
    forall i | 0 <= i < |ws|
      ensures TagAllowed(Some(kind), ws[i].tag) && Printable(ws[i])
    {
      assert i > 0 ==> ws[i] == more[i - 1];
    }
  }

  /** And every print ends as one. */
  lemma {:induction false} PrintedEnds(ordered: bool, w: Wire, rest: seq<Byte>)
    requires Printable(w) && !HasPath(w) && (ordered ==> Ascends(w))
    ensures ElementEnd(ordered, Print(w) + rest) == Some(|Print(w)|)
    decreases w, 0
  {
    hide ElementEnd, PayloadEnd, MembersEnd, ScalarControl, ScalarPayload, ScalarFits, PrintMembers, MembersPrintable, MembersAscend, AnyHasPath, Head;
    match w
    case Leaf(tag, s) =>
      assert Print(w) + rest == Head(tag, ScalarControl(s)) + (ScalarPayload(s) + rest);
      PrintedPayloadEnds(s, rest);
      HeadTaken(ordered, tag, ScalarControl(s), ScalarPayload(s) + rest);
    case Container(tag, kind, members) =>
      var body := PrintMembers(kind, members) + [END_OF_CONTAINER] + rest;
      assert Print(w) + rest == Head(tag, ContainerType(kind)) + body;
      PrintedMembersEnd(ordered, kind, -1, members, rest);
      HeadTaken(ordered, tag, ContainerType(kind), body);
  }

  lemma HeadTaken(ordered: bool, tag: Tag, control: nat, body: seq<Byte>)
    requires TagInRange(tag) && control < 0x20
    ensures var end :=
              if control == TYPE_STRUCTURE then MembersEnd(ordered, Structure, -1, body)
              else if control == TYPE_ARRAY then MembersEnd(ordered, Array, -1, body)
              else PayloadEnd(control, body);
            ElementEnd(ordered, Head(tag, control) + body) ==
            if end.None? then None else Some(|Head(tag, control)| + end.value)
  {
    hide MembersEnd, PayloadEnd;
    HeadReadsBack(tag, control, body);
  }

  lemma {:induction false} PrintedMembersEnd(ordered: bool, kind: Kind, last: int, ws: seq<Wire>, rest: seq<Byte>)
    requires kind != Path && MembersPrintable(kind, ws) && !AnyHasPath(ws)
    requires ordered ==> MembersAscend(kind, last, ws)
    ensures MembersEnd(ordered, kind, last, PrintMembers(kind, ws) + [END_OF_CONTAINER] + rest) ==
            Some(|PrintMembers(kind, ws)| + 1)
    decreases ws, 1
  {
    hide ElementEnd, Print, Printable, HasPath, Ascends;
    var body := PrintMembers(kind, ws) + [END_OF_CONTAINER] + rest;
    if ws == [] {
      assert body == [END_OF_CONTAINER] + rest;
    } else {
      var more := PrintMembers(kind, ws[1..]) + [END_OF_CONTAINER] + rest;
      assert body == Print(ws[0]) + more;
      PrintedStart(kind, ws[0], more);
      PrintedEnds(ordered, ws[0], more);
      PrintedMembersEnd(ordered, kind, SortKey(ws[0].tag), ws[1..], rest);
      MemberTaken(ordered, kind, last, ws[0].tag, Print(ws[0]), more);
    }
  }

  /** One turn over the members. */
  lemma MemberTaken(ordered: bool, kind: Kind, last: int, tag: Tag, first: seq<Byte>, more: seq<Byte>)
    requires first != [] && first[0] != END_OF_CONTAINER
    requires (kind == Structure) == (first[0] / 32 == 1) == tag.Context?
    requires tag.Context? ==> |first + more| > 1 && tag == Context((first + more)[1])
    requires ElementEnd(ordered, first + more) == Some(|first|)
    requires ordered && kind == Structure ==> SortKey(tag) > last
    requires MembersEnd(ordered, kind, SortKey(tag), more).Some?
    ensures MembersEnd(ordered, kind, last, first + more) ==
            Some(|first| + MembersEnd(ordered, kind, SortKey(tag), more).value)
  {
    hide ElementEnd;
    assert (first + more)[0] == first[0] && (first + more)[|first|..] == more;
  }

  /** The first byte of a member tells whether it is tagged, and is no end marker. */
  lemma PrintedStart(kind: Kind, w: Wire, more: seq<Byte>)
    requires kind != Path && Printable(w) && TagAllowed(Some(kind), w.tag)
    ensures var body := Print(w) + more;
            && body[0] != END_OF_CONTAINER
            && (body[0] / 32 == 1 <==> kind == Structure)
            && (w.tag.Context? <==> kind == Structure)
            && (kind == Structure ==> |body| > 1 && w.tag == Context(body[1]))
  {
    hide ScalarPayload, PrintMembers, ControlByte;
    if w.Leaf? {
      PrintedPayloadEnds(w.scalar, []);
    }
  }

  // ----- Which accepted buffers are encodings -----

  /** The bytes are what the writer emits for some element that the reader can read. */
  ghost predicate IsEncoding(bytes: seq<Byte>) {
    exists w :: Printable(w) && !HasPath(w) && Print(w) == bytes
  }

  /** The bytes are what `put` emits for some value. */
  ghost predicate IsPut(bytes: seq<Byte>) {
    exists tag, v :: Printable(WireOf(tag, v)) && Print(WireOf(tag, v)) == bytes
  }

  /** A buffer in the writer's form is accepted, and the reader stops where the form ends. */
  lemma StrictIsAccepted(ordered: bool, input: seq<Byte>)
    requires ElementEnd(ordered, input).Some?
    ensures var p := ParseElement(input); p.Element? && Some(p.used) == ElementEnd(ordered, input)
  {
    hide ElementEnd, ParseElement, Print, Printable, HasPath, Ascends;
    var end := ElementEnd(ordered, input).value;
    var w := EndsIsPrinted(ordered, input);
    assert Print(w) + input[end..] == input;
    PrintThenParse(w, input[end..]);
  }

  /**
   The converse of the round trip: a buffer the reader accepts starts with an encoding,
   ending where the reader stops, if and only if it has the writer's form.
   */
  lemma AcceptedIsEncodingIff(input: seq<Byte>)
    requires input != [] && ParseElement(input).Element?
    ensures var used := ParseElement(input).used;
            Strict(input) <==> used <= |input| && IsEncoding(input[..used])
  {
    hide ElementEnd, ParseElement, Print, Printable, HasPath, Ascends;
    var used := ParseElement(input).used;
    if Strict(input) {
      StrictIsAccepted(false, input);
      var w := EndsIsPrinted(false, input);
    }
    if used <= |input| && IsEncoding(input[..used]) {
      var w :| Printable(w) && !HasPath(w) && Print(w) == input[..used];
      assert Print(w) + input[used..] == input;
      PrintedEnds(false, w, input[used..]);
    }
  }

  // ----- Which accepted buffers are encodings of their value -----

  function TagsOf(ws: seq<Wire>): (tags: seq<Tag>)
    ensures |tags| == |ws| && forall i :: 0 <= i < |ws| ==> tags[i] == ws[i].tag
  {
    seq(|ws|, i requires 0 <= i < |ws| => ws[i].tag)
  }

  predicate InOrder(tags: seq<Tag>) {
    forall i, j :: 0 <= i < j < |tags| ==> tags[i] != tags[j] && Before(tags[i], tags[j])
  }

  lemma {:induction false} AscendingTags(last: int, ws: seq<Wire>)
    requires MembersAscend(Structure, last, ws)
    ensures InOrder(TagsOf(ws)) && forall i :: 0 <= i < |ws| ==> SortKey(ws[i].tag) > last
    decreases ws
  {
    hide Ascends;
    if ws != [] {
      AscendingTags(SortKey(ws[0].tag), ws[1..]);
      assert forall i :: 0 < i < |ws| ==> ws[i] == ws[1..][i - 1] && TagsOf(ws)[i] == TagsOf(ws[1..])[i - 1];
    }
  }

  /** The order of a set of tags is unique. */
  lemma TagOrderIsUnique(s: seq<Tag>, t: seq<Tag>)
    requires InOrder(s) && InOrder(t) && forall x :: x in s <==> x in t
    ensures s == t
  {
    var less := (a: Tag, b: Tag) => a != b && Before(a, b);
    Sequences.OrderIsUnique(less, s, t);
  }

  /** The collected dictionary holds what there was and each member's meaning under its tag. */
  predicate Collects(v: Value, done: map<Tag, Value>, ws: seq<Wire>)
    requires !AnyHasPath(ws)
    decreases ws
  {
    && v.Dict?
    && (forall t :: t in done ==> t in v.fields && v.fields[t] == done[t])
    && (ws != [] ==> Collects(v, done[ws[0].tag := Meaning(ws[0])], ws[1..]))
    && (ws == [] ==> v.fields == done)
  }

  /** What structure members with different tags are collected to. */
  lemma {:induction false} AllStored(ws: seq<Wire>, done: map<Tag, Value>)
    requires !AnyHasPath(ws) && InOrder(TagsOf(ws))
    requires forall i :: 0 <= i < |ws| ==> ws[i].tag !in done
    ensures Collects(StoreAll(Dict(done), ws), done, ws)
  {
    hide HasPath, Meaning, Before;
    if ws != [] {
      var done' := done[ws[0].tag := Meaning(ws[0])];
      RestInOrder(ws);
      forall i | 0 <= i < |ws[1..]|
        ensures ws[1..][i].tag !in done'
      {
        assert TagsOf(ws)[0] != TagsOf(ws)[i + 1];
      }
      AllStored(ws[1..], done');
    }
  }

  lemma RestInOrder(ws: seq<Wire>)
    requires ws != [] && InOrder(TagsOf(ws))
    ensures InOrder(TagsOf(ws[1..])) && TagsOf(ws) == [ws[0].tag] + TagsOf(ws[1..])
  {
    hide Before;
    assert TagsOf(ws)[1..] == TagsOf(ws[1..]);
  }

  lemma {:induction false} CollectedFields(v: Value, done: map<Tag, Value>, ws: seq<Wire>)
    requires !AnyHasPath(ws) && Collects(v, done, ws)
    ensures forall t :: t in v.fields <==> t in done || t in TagsOf(ws)
    ensures forall i :: 0 <= i < |ws| ==> !HasPath(ws[i]) && ws[i].tag in v.fields && v.fields[ws[i].tag] == Meaning(ws[i])
    decreases ws
  {
    hide HasPath, Meaning;
    if ws != [] {
      var done' := done[ws[0].tag := Meaning(ws[0])];
      CollectedFields(v, done', ws[1..]);
      assert TagsOf(ws) == [ws[0].tag] + TagsOf(ws[1..]);
      FirstCollected(v, done, ws);
      forall i | 0 <= i < |ws|
        ensures !HasPath(ws[i]) && ws[i].tag in v.fields && v.fields[ws[i].tag] == Meaning(ws[i])
      {
        assert i > 0 ==> ws[i] == ws[1..][i - 1];
      }
    }
  }

  lemma FirstCollected(v: Value, done: map<Tag, Value>, ws: seq<Wire>)
    requires ws != [] && !AnyHasPath(ws) && Collects(v, done, ws)
    ensures !HasPath(ws[0]) && ws[0].tag in v.fields && v.fields[ws[0].tag] == Meaning(ws[0])
  {
    hide HasPath, Meaning;
    assert Collects(v, done[ws[0].tag := Meaning(ws[0])], ws[1..]);
    assert ws[0].tag in done[ws[0].tag := Meaning(ws[0])];
  }

  /** An element with ascending tags is the element its value is written as. */
  lemma {:induction false} NormalForm(w: Wire)
    requires Printable(w) && !HasPath(w) && Ascends(w)
    ensures WireOf(w.tag, Meaning(w)) == w
    decreases w, 0
  {
    match w
    case Leaf(_, _) =>
    case Container(tag, kind, ws) =>
      if kind == Structure {
        AscendingTags(-1, ws);
        AllStored(ws, map[]);
        var v := Meaning(w);
        CollectedFields(v, map[], ws);
        TagOrderIsUnique(SortedTags(v.fields.Keys), TagsOf(ws));
        NormalMembers(v, ws, -1);
      } else {
        ListStored(ws, []);
        NormalItems(ws, -1);
        assert [] + Meanings(ws) == Meanings(ws);
      }
  }

  lemma {:induction false} NormalMembers(v: Value, ws: seq<Wire>, last: int)
    requires MembersPrintable(Structure, ws) && MembersAscend(Structure, last, ws) && !AnyHasPath(ws)
    requires v.Dict? && forall i :: 0 <= i < |ws| ==>
               ws[i].tag in v.fields && !HasPath(ws[i]) && v.fields[ws[i].tag] == Meaning(ws[i])
    ensures (forall t :: t in TagsOf(ws) ==> t in v.fields) && DictMembers(v, TagsOf(ws)) == ws
    decreases ws, 1
  {
    hide Printable, HasPath, Meaning, Ascends, WireOf, DictMembers;
    assert forall i :: 0 <= i < |ws| ==> TagsOf(ws)[i] in v.fields;
    DictMembersStep(v, TagsOf(ws));
    if ws != [] {
      NormalForm(ws[0]);
      assert forall i :: 0 < i < |ws| ==> ws[i] == ws[1..][i - 1];
      NormalMembers(v, ws[1..], SortKey(ws[0].tag));
      assert TagsOf(ws)[1..] == TagsOf(ws[1..]);
      assert ws == [ws[0]] + ws[1..];
    }
  }

  lemma DictMembersStep(v: Value, tags: seq<Tag>)
    requires v.Dict? && forall t :: t in tags ==> t in v.fields
    ensures tags == [] ==> DictMembers(v, tags) == []
    ensures tags != [] ==> DictMembers(v, tags) == [WireOf(tags[0], v.fields[tags[0]])] + DictMembers(v, tags[1..])
  {
    hide WireOf;
  }

  function Meanings(ws: seq<Wire>): seq<Value>
    requires !AnyHasPath(ws)
  {
    if ws == [] then [] else [Meaning(ws[0])] + Meanings(ws[1..])
  }

  lemma {:induction false} ListStored(ws: seq<Wire>, done: seq<Value>)
    requires !AnyHasPath(ws)
    ensures StoreAll(List(done), ws) == List(done + Meanings(ws))
  {
    hide HasPath, Meaning;
    if ws == [] {
      assert done + [] == done;
    } else {
      ListStored(ws[1..], done + [Meaning(ws[0])]);
      assert done + [Meaning(ws[0])] + Meanings(ws[1..]) == done + ([Meaning(ws[0])] + Meanings(ws[1..]));
    }
  }

  lemma {:induction false} NormalItems(ws: seq<Wire>, last: int)
    requires MembersPrintable(Array, ws) && MembersAscend(Array, last, ws) && !AnyHasPath(ws)
    ensures ListMembers(Meanings(ws)) == ws
    decreases ws, 1
  {
    hide Printable, HasPath, Meaning, Ascends, WireOf;
    if ws != [] {
      NormalForm(ws[0]);
      assert forall i :: 0 < i < |ws| ==> ws[i] == ws[1..][i - 1];
      NormalItems(ws[1..], SortKey(ws[0].tag));
      assert Meanings(ws)[1..] == Meanings(ws[1..]);
      assert ws == [ws[0]] + ws[1..];
    }
  }

  /** Every element that `put` writes for a readable value has ascending tags. */
  lemma {:induction false} PutAscends(tag: Tag, v: Value)
    requires Printable(WireOf(tag, v)) && !HasTlvList(v)
    ensures Ascends(WireOf(tag, v))
    decreases v, 0
  {
    hide Printable, DictMembers, ListMembers, MembersPrintable, MembersAscend;
    PutMembersPrintable(tag, v);
    match v
    case Plain(_) =>
    case Dict(fields) =>
      var tags := SortedTags(fields.Keys);
      FirstIsTagged(v, tags);
      PutMembersAscend(v, tags, -1);
    case List(elements) => PutItemsAscend(elements, -1);
  }

  lemma PutMembersPrintable(tag: Tag, v: Value)
    requires Printable(WireOf(tag, v))
    ensures v.Dict? ==> MembersPrintable(Structure, DictMembers(v, SortedTags(v.fields.Keys)))
    ensures v.List? ==> MembersPrintable(Array, ListMembers(v.elements))
  {
    hide MembersPrintable;
  }

  lemma FirstIsTagged(v: Value, tags: seq<Tag>)
    requires v.Dict? && (forall t :: t in tags ==> t in v.fields)
    requires MembersPrintable(Structure, DictMembers(v, tags))
    ensures tags != [] ==> SortKey(tags[0]) > -1
  {
    hide Printable, WireOf;
    if tags != [] {
      var ws := DictMembers(v, tags);
      WireTag(tags[0], v.fields[tags[0]]);
      assert TagAllowed(Some(Structure), ws[0].tag);
    }
  }

  lemma WireTag(tag: Tag, v: Value)
    ensures WireOf(tag, v).tag == tag
  {
  }

  lemma {:induction false} PutMembersAscend(v: Value, tags: seq<Tag>, last: int)
    requires v.Dict? && InOrder(tags) && (forall t :: t in tags ==> t in v.fields && !HasTlvList(v.fields[t]))
    requires MembersPrintable(Structure, DictMembers(v, tags))
    requires tags != [] ==> SortKey(tags[0]) > last
    ensures MembersAscend(Structure, last, DictMembers(v, tags))
    decreases v, 0, |tags|
  {
    hide Printable, Ascends, HasTlvList;
    if tags != [] {
      var ws := DictMembers(v, tags);
      assert tags[0] in tags && ws[0].tag == tags[0] && ws[1..] == DictMembers(v, tags[1..]);
      assert forall i :: 0 <= i < |ws[1..]| ==> ws[1..][i] == ws[i + 1];
      PutAscends(tags[0], v.fields[tags[0]]);
      if |tags| > 1 {
        assert Before(tags[0], tags[1]) && tags[0] != tags[1];
        assert ws[1].tag == tags[1];
      }
      PutMembersAscend(v, tags[1..], SortKey(tags[0]));
    }
  }

  lemma {:induction false} PutItemsAscend(elements: seq<Value>, last: int)
    requires MembersPrintable(Array, ListMembers(elements))
    requires forall i :: 0 <= i < |elements| ==> !HasTlvList(elements[i])
    ensures MembersAscend(Array, last, ListMembers(elements))
    decreases elements, 1
  {
    hide Printable, Ascends, HasTlvList;
    if elements != [] {
      var ws := ListMembers(elements);
      assert ws[1..] == ListMembers(elements[1..]);
      assert forall i :: 0 <= i < |ws[1..]| ==> ws[1..][i] == ws[i + 1];
      assert ws[0] == WireOf(Anonymous, elements[0]);
      PutAscends(Anonymous, elements[0]);
      PutItemsAscend(elements[1..], SortKey(ws[0].tag));
    }
  }

  /**
   Writing what was read gives the bytes that were read, if and only if the buffer has the
   writer's form with ascending tags; and no other value is written as those bytes.
   */
  lemma ReencodesIff(input: seq<Byte>)
    requires input != [] && ParseElement(input).Element?
    ensures var Element(tag, v, used) := ParseElement(input);
            && (Canonical(input) <==>
                  used <= |input| && Printable(WireOf(tag, v)) && Print(WireOf(tag, v)) == input[..used])
            && (Canonical(input) <==> used <= |input| && IsPut(input[..used]))
  {
    hide ElementEnd, ParseElement, Print, Printable, HasPath, Ascends, Meaning, WireOf, HasTlvList;
    var Element(tag, v, used) := ParseElement(input);
    if Canonical(input) {
      StrictIsAccepted(true, input);
      var w := EndsIsPrinted(true, input);
      assert Print(w) + input[used..] == input;
      PrintThenParse(w, input[used..]);
      NormalForm(w);
    }
    if used <= |input| && IsPut(input[..used]) {
      var t, u :| Printable(WireOf(t, u)) && Print(WireOf(t, u)) == input[..used];
      assert Print(WireOf(t, u)) + input[used..] == input;
      ValueRoundTrip(t, u, input[used..]);
      PutAscends(t, u);
      WireKeepsMeaning(t, u);
      PrintedEnds(true, WireOf(t, u), input[used..]);
    }
  }

  // ----- Accepted buffers that are none -----

  /**
   The ways in which an accepted buffer can fail the form, one by one: a missing end
   marker, a string that runs past the buffer while the cursor moves by the full length, a
   number wider than needed, a reserved tag control, an untagged structure member, and a
   tagged array member.
   */
  lemma AcceptedIsNotCanonical()
    ensures ParseElement([TYPE_STRUCTURE]) == Element(Anonymous, Dict(map[]), 1) && !Strict([TYPE_STRUCTURE])
    ensures ParseElement([TYPE_BYTE_STRING, 5, 65]) == Element(Anonymous, Plain(Octets([65])), 7)
    ensures !Strict([TYPE_BYTE_STRING, 5, 65])
    ensures ParseElement([0x05, 5, 0]) == Element(Anonymous, Plain(UInt(5)), 3) && !Strict([0x05, 5, 0])
    ensures ParseElement([0x40 + TYPE_NULL]) == Element(Anonymous, Plain(Null), 1) && !Strict([0x40 + TYPE_NULL])
    ensures var untagged := [TYPE_STRUCTURE, TYPE_NULL, END_OF_CONTAINER];
            ParseElement(untagged) == Element(Anonymous, Dict(map[Anonymous := Plain(Null)]), 3) && !Strict(untagged)
    ensures var tagged := [TYPE_ARRAY, 0x34, 1, END_OF_CONTAINER];
            ParseElement(tagged) == Element(Anonymous, List([Plain(Null)]), 4) && !Strict(tagged)
  {
    NoEndMarker();
    LongString();
    WideNumber();
    assert [0x40 + TYPE_NULL][1..] == [];
    UntaggedMember();
    TaggedItem();
  }

  lemma UntaggedMember()
    ensures var untagged := [TYPE_STRUCTURE, TYPE_NULL, END_OF_CONTAINER];
            ParseElement(untagged) == Element(Anonymous, Dict(map[Anonymous := Plain(Null)]), 3) && !Strict(untagged)
  {
    var untagged, body: seq<Byte> := [TYPE_STRUCTURE, TYPE_NULL, END_OF_CONTAINER], [TYPE_NULL, END_OF_CONTAINER];
    OneNull(Anonymous, Dict(map[]));
    assert Head(Anonymous, TYPE_NULL) + [END_OF_CONTAINER] == body;
    assert MembersEnd(false, Structure, -1, body) == None;
    hide MembersEnd, ParseItems, ParseScalar, PayloadEnd, ElementEnd;
    HeadTaken(false, Anonymous, TYPE_STRUCTURE, body);
    assert untagged == [TYPE_STRUCTURE] + body && untagged[1..] == body;
    assert map[][Anonymous := Plain(Null)] == map[Anonymous := Plain(Null)];
  }

  lemma TaggedItem()
    ensures var tagged := [TYPE_ARRAY, 0x34, 1, END_OF_CONTAINER];
            ParseElement(tagged) == Element(Anonymous, List([Plain(Null)]), 4) && !Strict(tagged)
  {
    var tagged, body: seq<Byte> := [TYPE_ARRAY, 0x34, 1, END_OF_CONTAINER], [0x34, 1, END_OF_CONTAINER];
    OneNull(Context(1), List([]));
    assert Head(Context(1), TYPE_NULL) + [END_OF_CONTAINER] == body;
    assert MembersEnd(false, Array, -1, body) == None;
    hide MembersEnd, ParseItems, ParseScalar, PayloadEnd, ElementEnd;
    HeadTaken(false, Anonymous, TYPE_ARRAY, body);
    assert tagged == [TYPE_ARRAY] + body && tagged[1..] == body;
    assert [] + [Plain(Null)] == [Plain(Null)];
  }

  /** A null and the end marker, collected by whatever container. */
  lemma OneNull(tag: Tag, out: Value)
    requires TagInRange(tag)
    ensures ParseItems(Head(tag, TYPE_NULL) + [END_OF_CONTAINER], out) ==
            Collected(Store(out, tag, Plain(Null)), |Head(tag, TYPE_NULL)| + 1)
  {
    hide ParseItems, ParseElement, Store;
    var w := Leaf(tag, Null);
    assert Print(w) == Head(tag, TYPE_NULL);
    OneMember(w, [], out);
    assert [END_OF_CONTAINER] + [] == [END_OF_CONTAINER];
  }

  /** One member and the end marker, whatever the container makes of the tag. */
  lemma OneMember(w: Wire, rest: seq<Byte>, out: Value)
    requires Printable(w) && !HasPath(w)
    ensures ParseItems(Print(w) + ([END_OF_CONTAINER] + rest), out) ==
            Collected(Store(out, w.tag, Meaning(w)), |Print(w)| + 1)
  {
    PrintThenParse(w, [END_OF_CONTAINER] + rest);
    ParseFirst(Print(w), [END_OF_CONTAINER] + rest, out);
    ParseEnd(rest, Store(out, w.tag, Meaning(w)));
  }

  /**
   Tags that repeat or descend keep the form but not the order: of a structure with the
   tags `first` and 1 the reader makes a dictionary, which is written differently.
   */
  lemma AcceptedOutOfOrder(first: Byte)
    requires first >= 1
    ensures var input := [TYPE_STRUCTURE] + [0x34, first, 0x34, 1, END_OF_CONTAINER];
            && ParseElement(input) ==
               Element(Anonymous, Dict(map[Context(first) := Plain(Null)][Context(1) := Plain(Null)]), 6)
            && Strict(input) && !Canonical(input)
  {
    hide MembersEnd, ParseItems, ParseScalar, PayloadEnd;
    var body := [0x34, first, 0x34, 1, END_OF_CONTAINER];
    TwoCollected(first);
    TwoEnd(first);
    HeadTaken(false, Anonymous, TYPE_STRUCTURE, body);
    HeadTaken(true, Anonymous, TYPE_STRUCTURE, body);
    assert ([TYPE_STRUCTURE] + body)[1..] == body;
  }

  lemma TwoCollected(first: Byte)
    ensures ParseItems([0x34, first, 0x34, 1, END_OF_CONTAINER], Dict(map[])) ==
            Collected(Dict(map[Context(first) := Plain(Null)][Context(1) := Plain(Null)]), 5)
  {
    var w, u := Leaf(Context(first), Null), Leaf(Context(1), Null);
    assert Print(w) == [0x34, first] && Print(u) == [0x34, 1];
    var last := Print(u) + ([END_OF_CONTAINER] + []);
    assert last == [0x34, 1, END_OF_CONTAINER];
    assert Print(w) + last == [0x34, first, 0x34, 1, END_OF_CONTAINER];
    PrintThenParse(w, last);
    ParseFirst(Print(w), last, Dict(map[]));
    OneMember(u, [], Dict(map[][Context(first) := Plain(Null)]));
    assert map[][Context(first) := Plain(Null)] == map[Context(first) := Plain(Null)];
  }

  lemma NoEndMarker()
    ensures ParseElement([TYPE_STRUCTURE]) == Element(Anonymous, Dict(map[]), 1) && !Strict([TYPE_STRUCTURE])
  {
    assert [TYPE_STRUCTURE][1..] == [];
    assert ParseItems([], Dict(map[])) == Collected(Dict(map[]), 0);
    assert MembersEnd(false, Structure, -1, []) == None;
  }

  lemma LongString()
    ensures ParseElement([TYPE_BYTE_STRING, 5, 65]) == Element(Anonymous, Plain(Octets([65])), 7)
    ensures !Strict([TYPE_BYTE_STRING, 5, 65])
  {
    var body := [TYPE_BYTE_STRING, 5, 65][1..];
    assert body == [5, 65];
    assert body[..1] == [5] && body[1..] == [65];
    assert FromLittleEndian([5]) == 5;
  }

  lemma WideNumber()
    ensures ParseElement([0x05, 5, 0]) == Element(Anonymous, Plain(UInt(5)), 3) && !Strict([0x05, 5, 0])
  {
    var body := [0x05, 5, 0][1..];
    assert body == [5, 0] && body[..2] == [5, 0];
    assert [5, 0][1..] == [0];
    assert FromLittleEndian([0]) == 0;
    assert FromLittleEndian([5, 0]) == 5;
    Spans();
  }

  lemma TwoEnd(first: Byte)
    requires first >= 1
    ensures var more := [0x34, first, 0x34, 1, END_OF_CONTAINER];
            MembersEnd(false, Structure, -1, more) == Some(5) && MembersEnd(true, Structure, -1, more) == None
  {
    var more, last: seq<Byte> := [0x34, first, 0x34, 1, END_OF_CONTAINER], [0x34, 1, END_OF_CONTAINER];
    assert more[2..] == last;
    NullMember(more);
    LastEnds(first);
    hide ElementEnd;
    assert MembersEnd(false, Structure, -1, more) == Some(5);
    assert MembersEnd(true, Structure, -1, more) == None;
  }

  lemma LastEnds(above: int)
    requires above >= 1
    ensures var last := [0x34, 1, END_OF_CONTAINER];
            MembersEnd(false, Structure, above, last) == Some(3) && MembersEnd(true, Structure, above, last) == None
  {
    var last, end: seq<Byte> := [0x34, 1, END_OF_CONTAINER], [END_OF_CONTAINER];
    assert last[2..] == end;
    NullMember(last);
    hide ElementEnd;
    assert MembersEnd(false, Structure, 1, end) == Some(1);
  }

  lemma NullMember(input: seq<Byte>)
    requires |input| > 1 && input[0] == 0x34
    ensures forall ordered :: ElementEnd(ordered, input) == Some(2)
  {
    assert PayloadEnd(TYPE_NULL, input[2..]) == Some(0);
  }
}
