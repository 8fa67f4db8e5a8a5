/**
 The Matter TLV encoding as python_client/chip/tlv/__init__.py writes and reads it.

 `Wire` is an element as it lies in the buffer, with its members in wire order;
 `Value` is the Python value behind it, where a structure is a dictionary. `Print`
 gives the bytes of a wire element and `ParseElement` what the reader makes of an
 arbitrary buffer. The writer and the reader classes are proved against these two in
 TlvCodec.dfy; here the two are proved to be inverses.
 */
module TlvFormat {
  import opened Wrappers

  type Byte = b: int | 0 <= b < 256

  datatype Result<+T> = Ok(value: T) | Err(error: Error)

  /**
   `ValueError` is what the codec raises itself, `StructError` what unpacking a short slice
   raises, `TypeError` what the schema layer raises on a list type it takes for a class, and
   `AttributeError` what it raises on a top-level value that is no dictionary.
   */
  datatype Error = ValueError | StructError | TypeError | AttributeError

  /** A tag argument: `None` in Python, or an integer of any size. */
  datatype Tag = Anonymous | Context(number: int)

  datatype Scalar =
    | Null
    | Bool(flag: bool)
    | UInt(n: nat)
    | SInt(i: int)
    | Text(utf8: seq<Byte>)
    | Octets(data: seq<Byte>)
    | Float32(raw4: Raw4)
    | Float64(raw8: Raw8)

  type Raw4 = s: seq<Byte> | |s| == 4 witness [0, 0, 0, 0]
  type Raw8 = s: seq<Byte> | |s| == 8 witness [0, 0, 0, 0, 0, 0, 0, 0]

  datatype Kind = Structure | Array | Path

  datatype Wire = Leaf(tag: Tag, scalar: Scalar) | Container(tag: Tag, kind: Kind, members: seq<Wire>)

  datatype Value =
    | Plain(scalar: Scalar)
    | Dict(fields: map<Tag, Value>)
    | List(elements: seq<Value>)
    | TlvList(items: seq<Item>)

  datatype Item = Item(tag: Tag, value: Value)

  // ----- Constants -----

  const TYPE_SIGNED_INTEGER := 0x00
  const TYPE_UNSIGNED_INTEGER := 0x04
  const TYPE_BOOLEAN := 0x08
  const TYPE_FLOATING_POINT := 0x0A
  const TYPE_UTF8_STRING := 0x0C
  const TYPE_BYTE_STRING := 0x10
  const TYPE_NULL := 0x14
  const TYPE_STRUCTURE := 0x15
  const TYPE_ARRAY := 0x16
  const TYPE_PATH := 0x17
  const END_OF_CONTAINER := 0x18
  const TAG_CONTEXT_SPECIFIC := 0x20
  const UINT8_MAX := 255
  const UINT64_MAX := 0xFFFF_FFFF_FFFF_FFFF

  // ----- Fixed-width little-endian integers (struct.pack with "<") -----

  function Span(width: nat): (r: nat)
    ensures r > 0
  {
    if width == 0 then 1 else 256 * Span(width - 1)
  }

  function LittleEndian(n: nat, width: nat): (bytes: seq<Byte>)
    ensures |bytes| == width
  {
    if width == 0 then [] else [n % 256] + LittleEndian(n / 256, width - 1)
  }

  function FromLittleEndian(bytes: seq<Byte>): nat {
    if bytes == [] then 0 else bytes[0] + 256 * FromLittleEndian(bytes[1..])
  }

  lemma {:induction false} LittleEndianRoundTrip(n: nat, width: nat)
    requires n < Span(width)
    ensures FromLittleEndian(LittleEndian(n, width)) == n
  {
    if width > 0 {
      var bytes := LittleEndian(n, width);
      assert bytes[1..] == LittleEndian(n / 256, width - 1);
      LittleEndianRoundTrip(n / 256, width - 1);
    }
  }

  /** Two's complement: struct.pack with "<b", "<h", "<l" or "<q". */
  function Unsigned(i: int, width: nat): int {
    if i < 0 then i + Span(width) else i
  }

  function Signed(u: nat, width: nat): int {
    if 2 * u >= Span(width) then u - Span(width) else u
  }

  /** The byte count of the first format that fits, 0 when none does. */
  function UnsignedWidth(n: int): nat {
    if n < 0 then 0
    else if n <= 255 then 1
    else if n <= 65535 then 2
    else if n <= 4294967295 then 4
    else if n <= UINT64_MAX then 8
    else 0
  }

  function SignedWidth(i: int): nat {
    if -128 <= i <= 127 then 1
    else if -32768 <= i <= 32767 then 2
    else if -2147483648 <= i <= 2147483647 then 4
    else if -9223372036854775808 <= i <= 9223372036854775807 then 8
    else 0
  }

  lemma Spans()
    ensures Span(1) == 0x100
    ensures Span(2) == 0x1_0000
    ensures Span(4) == 0x1_0000_0000
    ensures Span(8) == 0x1_0000_0000_0000_0000
  {
    assert Span(3) == 256 * Span(2);
    assert Span(5) == 256 * Span(4);
    assert Span(6) == 256 * Span(5);
    assert Span(7) == 256 * Span(6);
  }

  // ----- The wire form -----

  /** The length bits that are or-ed into the two low bits of the element type. */
  function LengthCode(length: nat): nat {
    if length == 2 then 1 else if length == 4 then 2 else if length == 8 then 3 else 0
  }

  /** `elementType | LengthCode(length)`: the code only touches the two low bits. */
  function ControlByte(elementType: nat, length: nat): nat {
    var low, code := elementType % 4, LengthCode(length);
    elementType - low
    + (if low / 2 == 1 || code / 2 == 1 then 2 else 0)
    + (if low % 2 == 1 || code % 2 == 1 then 1 else 0)
  }

  predicate TagInRange(tag: Tag) {
    tag.Context? ==> 0 <= tag.number <= UINT8_MAX
  }

  function Head(tag: Tag, control: nat): seq<Byte>
    requires TagInRange(tag) && control < 0x20
  {
    match tag
    case Anonymous => [control]
    case Context(number) => [TAG_CONTEXT_SPECIFIC + control, number]
  }

  function ContainerType(kind: Kind): nat {
    match kind
    case Structure => TYPE_STRUCTURE
    case Array => TYPE_ARRAY
    case Path => TYPE_PATH
  }

  /** Integers and lengths have a width; everything else always fits. */
  predicate ScalarFits(s: Scalar) {
    match s
    case UInt(n) => UnsignedWidth(n) != 0
    case SInt(i) => SignedWidth(i) != 0
    case Text(utf8) => UnsignedWidth(|utf8|) != 0
    case Octets(data) => UnsignedWidth(|data|) != 0
    case _ => true
  }

  function ScalarControl(s: Scalar): (control: nat)
    ensures control < 0x20
  {
    match s
    case Null => TYPE_NULL
    case Bool(flag) => if flag then TYPE_BOOLEAN + 1 else TYPE_BOOLEAN
    case UInt(n) => ControlByte(TYPE_UNSIGNED_INTEGER, UnsignedWidth(n))
    case SInt(i) => ControlByte(TYPE_SIGNED_INTEGER, SignedWidth(i))
    case Text(utf8) => ControlByte(TYPE_UTF8_STRING, UnsignedWidth(|utf8|))
    case Octets(data) => ControlByte(TYPE_BYTE_STRING, UnsignedWidth(|data|))
    case Float32(_) => ControlByte(TYPE_FLOATING_POINT, 4)
    case Float64(_) => ControlByte(TYPE_FLOATING_POINT, 8)
  }

  function ScalarPayload(s: Scalar): seq<Byte>
    requires ScalarFits(s)
  {
    match s
    case Null => []
    case Bool(_) => []
    case UInt(n) => LittleEndian(n, UnsignedWidth(n))
    case SInt(i) =>
      Spans();
      LittleEndian(Unsigned(i, SignedWidth(i)), SignedWidth(i))
    case Text(utf8) => LittleEndian(|utf8|, UnsignedWidth(|utf8|)) + utf8
    case Octets(data) => LittleEndian(|data|, UnsignedWidth(|data|)) + data
    case Float32(raw) => raw
    case Float64(raw) => raw
  }

  /** Which tags the writer accepts, given the innermost open container. */
  predicate TagAllowed(enclosing: Option<Kind>, tag: Tag) {
    match tag
    case Anonymous => enclosing != Some(Structure)
    case Context(number) => TagInRange(tag) && enclosing.Some? && enclosing != Some(Array)
  }

  /** The writer's conditions on an element other than the place of its own tag. */
  predicate Printable(w: Wire)
    decreases w, 0
  {
    TagInRange(w.tag) &&
    match w
    case Leaf(_, s) => ScalarFits(s)
    case Container(_, kind, members) => MembersPrintable(kind, members)
  }

  predicate MembersPrintable(kind: Kind, members: seq<Wire>)
    decreases members, 1
  {
    forall i :: 0 <= i < |members| ==> TagAllowed(Some(kind), members[i].tag) && Printable(members[i])
  }

  function Print(w: Wire): (bytes: seq<Byte>)
    requires Printable(w)
    ensures |bytes| > 0
    decreases w, 0
  {
    match w
    case Leaf(tag, s) => Head(tag, ScalarControl(s)) + ScalarPayload(s)
    case Container(tag, kind, members) =>
      Head(tag, ContainerType(kind)) + PrintMembers(kind, members) + [END_OF_CONTAINER]
  }

  function PrintMembers(kind: Kind, members: seq<Wire>): seq<Byte>
    requires MembersPrintable(kind, members)
    decreases members, 1
  {
    if members == [] then [] else Print(members[0]) + PrintMembers(kind, members[1..])
  }

  // ----- What the reader makes of a buffer -----

  datatype Parsed =
    | Failed(error: Error)
    | EndMarker(used: nat)
    | Element(tag: Tag, value: Value, used: nat)

  datatype Collected = Broken(error: Error) | Collected(out: Value, used: nat)

  /** Python's `bytes[k:]`: empty once `k` has passed the end. */
  function Drop(input: seq<Byte>, k: nat): seq<Byte> {
    if k <= |input| then input[k..] else []
  }

  /** Python's `bytes[:k]`: what there is of the first `k` bytes. */
  function Take(input: seq<Byte>, k: nat): seq<Byte> {
    if k <= |input| then input[..k] else input
  }

  function WidthOfCode(code: nat): nat {
    if code == 0 then 1 else if code == 1 then 2 else if code == 2 then 4 else 8
  }

  /** A value of a non-container type and the bytes the cursor moves, which may be past the end. */
  function ParseScalar(elementType: nat, input: seq<Byte>): Result<(Scalar, nat)> {
    if elementType == TYPE_NULL then Ok((Null, 0))
    else if elementType == TYPE_BOOLEAN + 1 then Ok((Bool(true), 0))
    else if elementType == TYPE_BOOLEAN then Ok((Bool(false), 0))
    else if elementType < 0x08 || 0x0C <= elementType < 0x14 then
      var width := WidthOfCode(elementType % 4);
      if |input| < width then Err(StructError)
      else
        var n := FromLittleEndian(input[..width]);
        if elementType < 0x04 then Ok((SInt(Signed(n, width)), width))
        else if elementType < 0x08 then Ok((UInt(n), width))
        else if elementType < 0x10 then Ok((Text(Take(input[width..], n)), width + n))
        else Ok((Octets(Take(input[width..], n)), width + n))
    else if elementType == 0x0A then
      if |input| < 4 then Err(StructError) else Ok((Float32(input[..4]), 4))
    else if elementType == 0x0B then
      if |input| < 8 then Err(StructError) else Ok((Float64(input[..8]), 8))
    else Err(ValueError)
  }

  /** `out[key] = value` for a dictionary, `out.append(value)` for a list. */
  function Store(out: Value, tag: Tag, v: Value): Value {
    match out
    case Dict(fields) => Dict(fields[tag := v])
    case List(elements) => List(elements + [v])
    case _ => out
  }

  function Advance(used: nat, c: Collected): Collected {
    if c.Broken? then c else c.(used := used + c.used)
  }

  /** The object the reader fills for a container. */
  function Fresh(kind: Kind): Value {
    if kind == Structure then Dict(map[]) else List([])
  }

  /** The value of an element whose control byte and tag have been read. */
  function ParseValue(elementType: nat, input: seq<Byte>): Result<(Value, nat)>
    decreases |input|, 2
  {
    if elementType == TYPE_STRUCTURE || elementType == TYPE_ARRAY then
      match ParseItems(input, Fresh(if elementType == TYPE_STRUCTURE then Structure else Array))
      case Broken(e) => Err(e)
      case Collected(out, used) => Ok((out, used))
    else if elementType == END_OF_CONTAINER then Ok((Plain(Null), 0))
    else
      match ParseScalar(elementType, input)
      case Err(e) => Err(e)
      case Ok((s, used)) => Ok((Plain(s), used))
  }

  function ParseElement(input: seq<Byte>): (p: Parsed)
    requires input != []
    ensures !p.Failed? ==> p.used > 0
    decreases |input|, 0
  {
    var tagged, elementType := input[0] / 32 == 1, input[0] % 32;
    if tagged && |input| < 2 then Failed(StructError)
    else
      var tag, head := if tagged then Context(input[1]) else Anonymous, if tagged then 2 else 1;
      match ParseValue(elementType, input[head..])
      case Err(e) => Failed(e)
      case Ok((v, used)) =>
        if elementType == END_OF_CONTAINER then EndMarker(head + used) else Element(tag, v, head + used)
  }

  /** Elements stored into `out` one after the other until an end marker or the end of the buffer. */
  function ParseItems(input: seq<Byte>, out: Value): Collected
    decreases |input|, 1
  {
    if input == [] then Collected(out, 0)
    else
      match ParseElement(input)
      case Failed(e) => Broken(e)
      case EndMarker(used) => Collected(out, used)
      case Element(tag, v, used) =>
        Advance(used, ParseItems(Drop(input, used), Store(out, tag, v)))
  }

  // ----- What an element means -----

  predicate HasPath(w: Wire)
    decreases w, 0
  {
    w.Container? && (w.kind == Path || AnyHasPath(w.members))
  }

  predicate AnyHasPath(ws: seq<Wire>)
    decreases ws, 1
  {
    ws != [] && (HasPath(ws[0]) || AnyHasPath(ws[1..]))
  }

  /** The value an element stands for; later members replace earlier ones of the same tag. */
  function Meaning(w: Wire): Value
    requires !HasPath(w)
    decreases w, 0
  {
    match w
    case Leaf(_, s) => Plain(s)
    case Container(_, kind, members) => StoreAll(Fresh(kind), members)
  }

  function StoreAll(out: Value, ws: seq<Wire>): Value
    requires !AnyHasPath(ws)
    decreases ws, 1
  {
    if ws == [] then out else StoreAll(Store(out, ws[0].tag, Meaning(ws[0])), ws[1..])
  }

  // ----- Reading back what was printed -----

  lemma WidthsFit(n: nat)
    requires UnsignedWidth(n) != 0
    ensures n < Span(UnsignedWidth(n)) && UnsignedWidth(n) in {1, 2, 4, 8}
  {
    Spans();
  }

  lemma SignedWidthsFit(i: int)
    requires SignedWidth(i) != 0
    ensures var width := SignedWidth(i);
            0 <= Unsigned(i, width) < Span(width) && Signed(Unsigned(i, width), width) == i
    ensures SignedWidth(i) in {1, 2, 4, 8}
  {
    Spans();
  }

  /** A number and what follows it, read back. */
  lemma NumberReadsBack(n: nat, width: nat, rest: seq<Byte>)
    requires n < Span(width)
    ensures var input := LittleEndian(n, width) + rest;
            FromLittleEndian(input[..width]) == n && input[width..] == rest
  {
    LittleEndianRoundTrip(n, width);
    assert (LittleEndian(n, width) + rest)[..width] == LittleEndian(n, width);
  }

  /** A length-prefixed run of bytes and what follows it, read back. */
  lemma StringReadsBack(data: seq<Byte>, width: nat, rest: seq<Byte>)
    requires |data| < Span(width)
    ensures var input := LittleEndian(|data|, width) + data + rest;
            FromLittleEndian(input[..width]) == |data| && Take(input[width..], |data|) == data
  {
    hide LittleEndian, FromLittleEndian, Span;
    var input := LittleEndian(|data|, width) + data + rest;
    assert input == LittleEndian(|data|, width) + (data + rest);
    NumberReadsBack(|data|, width, data + rest);
  }

  /** What the type and length bits of a control byte give back. */
  lemma ControlBits(elementType: nat, width: nat)
    requires elementType in {TYPE_SIGNED_INTEGER, TYPE_UNSIGNED_INTEGER, TYPE_UTF8_STRING, TYPE_BYTE_STRING}
    requires width in {1, 2, 4, 8}
    ensures var control := ControlByte(elementType, width);
            elementType <= control < elementType + 4 && WidthOfCode(control % 4) == width
  {
  }

  lemma IntegerReadsBack(elementType: nat, n: nat, width: nat, rest: seq<Byte>)
    requires elementType in {TYPE_SIGNED_INTEGER, TYPE_UNSIGNED_INTEGER}
    requires width in {1, 2, 4, 8} && n < Span(width)
    ensures ParseScalar(ControlByte(elementType, width), LittleEndian(n, width) + rest) ==
            Ok((if elementType == TYPE_UNSIGNED_INTEGER then UInt(n) else SInt(Signed(n, width)), width))
  {
    hide LittleEndian, FromLittleEndian, Span, ControlByte, WidthOfCode, Signed, Take;
    ControlBits(elementType, width);
    NumberReadsBack(n, width, rest);
  }

  lemma BytesReadBack(elementType: nat, data: seq<Byte>, width: nat, rest: seq<Byte>)
    requires elementType in {TYPE_UTF8_STRING, TYPE_BYTE_STRING}
    requires width in {1, 2, 4, 8} && |data| < Span(width)
    ensures ParseScalar(ControlByte(elementType, width), LittleEndian(|data|, width) + data + rest) ==
            Ok((if elementType == TYPE_UTF8_STRING then Text(data) else Octets(data), width + |data|))
  {
    hide LittleEndian, FromLittleEndian, Span, ControlByte, WidthOfCode, Signed, Take;
    ControlBits(elementType, width);
    StringReadsBack(data, width, rest);
  }

  lemma ScalarReadsBack(s: Scalar, rest: seq<Byte>)
    requires ScalarFits(s)
    ensures ParseScalar(ScalarControl(s), ScalarPayload(s) + rest) == Ok((s, |ScalarPayload(s)|))
    ensures ScalarControl(s) < TYPE_STRUCTURE
  {
    var input := ScalarPayload(s) + rest;
    match s
    case Null =>
    case Bool(_) =>
    case UInt(n) =>
      WidthsFit(n);
      ControlBits(TYPE_UNSIGNED_INTEGER, UnsignedWidth(n));
      IntegerReadsBack(TYPE_UNSIGNED_INTEGER, n, UnsignedWidth(n), rest);
    case SInt(i) =>
      SignedWidthsFit(i);
      ControlBits(TYPE_SIGNED_INTEGER, SignedWidth(i));
      IntegerReadsBack(TYPE_SIGNED_INTEGER, Unsigned(i, SignedWidth(i)), SignedWidth(i), rest);
    case Text(utf8) =>
      WidthsFit(|utf8|);
      ControlBits(TYPE_UTF8_STRING, UnsignedWidth(|utf8|));
      BytesReadBack(TYPE_UTF8_STRING, utf8, UnsignedWidth(|utf8|), rest);
    case Octets(data) =>
      WidthsFit(|data|);
      ControlBits(TYPE_BYTE_STRING, UnsignedWidth(|data|));
      BytesReadBack(TYPE_BYTE_STRING, data, UnsignedWidth(|data|), rest);
    case Float32(raw) =>
      assert input[..4] == raw;
    case Float64(raw) =>
      assert input[..8] == raw;
  }

  /** The head of a printed element is read as its tag and type, and the rest is left. */
  lemma HeadReadsBack(tag: Tag, control: nat, rest: seq<Byte>)
    requires TagInRange(tag) && control < 0x20
    ensures var input := Head(tag, control) + rest;
            && (input[0] / 32 == 1 <==> tag.Context?)
            && input[0] % 32 == control
            && (tag.Context? ==> tag == Context(input[1]))
            && input[|Head(tag, control)|..] == rest
  {
  }

  /**
   Self-delimitation and round trip: the reader takes exactly the bytes of the element,
   whatever follows them, and yields its meaning; it does so if and only if the element
   holds no TLV list (type 0x17), which it refuses.
   */
  lemma {:induction false} PrintThenParse(w: Wire, rest: seq<Byte>)
    requires Printable(w)
    ensures ParseElement(Print(w) + rest) ==
            if HasPath(w) then Failed(ValueError) else Element(w.tag, Meaning(w), |Print(w)|)
    decreases w, 0
  {
    hide ScalarControl, ScalarPayload, ParseScalar, PrintMembers, ParseItems;
    match w
    case Leaf(tag, s) =>
      HeadReadsBack(tag, ScalarControl(s), ScalarPayload(s) + rest);
      assert Print(w) + rest == Head(tag, ScalarControl(s)) + (ScalarPayload(s) + rest);
      ScalarReadsBack(s, rest);
    case Container(tag, kind, members) =>
      var body := PrintMembers(kind, members) + [END_OF_CONTAINER] + rest;
      HeadReadsBack(tag, ContainerType(kind), body);
      assert Print(w) + rest == Head(tag, ContainerType(kind)) + body;
      if kind != Path {
        PrintThenParseMembers(kind, members, Fresh(kind), rest);
      } else {
        PathIsRefused(body);
      }
  }

  lemma PathIsRefused(input: seq<Byte>)
    ensures ParseScalar(TYPE_PATH, input) == Err(ValueError)
  {
  }

  lemma ParseFirst(first: seq<Byte>, more: seq<Byte>, out: Value)
    requires first != []
    ensures var p := ParseElement(first + more);
            && (p.Failed? ==> ParseItems(first + more, out) == Broken(p.error))
            && (p.Element? && p.used == |first| ==>
                  ParseItems(first + more, out) == Advance(|first|, ParseItems(more, Store(out, p.tag, p.value))))
  {
    assert Drop(first + more, |first|) == more;
  }

  lemma ParseEnd(rest: seq<Byte>, out: Value)
    ensures ParseItems([END_OF_CONTAINER] + rest, out) == Collected(out, 1)
  {
    assert ParseElement([END_OF_CONTAINER] + rest) == EndMarker(1);
  }

  lemma {:induction false} PrintThenParseMembers(kind: Kind, members: seq<Wire>, out: Value, rest: seq<Byte>)
    requires MembersPrintable(kind, members)
    ensures ParseItems(PrintMembers(kind, members) + [END_OF_CONTAINER] + rest, out) ==
            if AnyHasPath(members) then Broken(ValueError)
            else Collected(StoreAll(out, members), |PrintMembers(kind, members)| + 1)
    decreases members, 1
  {
    hide ParseItems, ParseElement, Print, Printable, Meaning, HasPath, Store;
    if members == [] {
      ParseEnd(rest, out);
      assert PrintMembers(kind, members) + [END_OF_CONTAINER] + rest == [END_OF_CONTAINER] + rest;
    } else {
      var more := PrintMembers(kind, members[1..]) + [END_OF_CONTAINER] + rest;
      assert PrintMembers(kind, members) + [END_OF_CONTAINER] + rest == Print(members[0]) + more;
      PrintThenParse(members[0], more);
      ParseFirst(Print(members[0]), more, out);
      if !HasPath(members[0]) {
        PrintThenParseMembers(kind, members[1..], Store(out, members[0].tag, Meaning(members[0])), rest);
      }
    }
  }

  /** No encoding is a proper prefix of another, and equal encodings have equal tags and meanings. */
  lemma PrintIsPrefixFree(w1: Wire, rest1: seq<Byte>, w2: Wire, rest2: seq<Byte>)
    requires Printable(w1) && !HasPath(w1) && Printable(w2) && !HasPath(w2)
    requires Print(w1) + rest1 == Print(w2) + rest2
    ensures w1.tag == w2.tag && Meaning(w1) == Meaning(w2) && Print(w1) == Print(w2) && rest1 == rest2
  {
    PrintThenParse(w1, rest1);
    PrintThenParse(w2, rest2);
    var n := |Print(w1)|;
    assert (Print(w1) + rest1)[..n] == Print(w1) && (Print(w2) + rest2)[..n] == Print(w2);
    assert (Print(w1) + rest1)[n..] == rest1 && (Print(w2) + rest2)[n..] == rest2;
  }

  // ----- Values to wire elements -----

  /** The order in which a plain dict is written: `tlvTagToSortKey` ascending, None before -1. */
  function SortKey(tag: Tag): int {
    match tag
    case Anonymous => -1
    case Context(number) => number
  }

  predicate Before(a: Tag, b: Tag) {
    SortKey(a) < SortKey(b) || (SortKey(a) == SortKey(b) && (a == b || a.Anonymous?))
  }

  lemma {:induction false} LeastTag(tags: set<Tag>) returns (least: Tag)
    requires tags != {}
    ensures least in tags && forall t :: t in tags ==> Before(least, t)
    decreases |tags|
  {
    var t :| t in tags;
    var others := tags - {t};
    assert tags == others + {t};
    if others == {} {
      least := t;
    } else {
      var m := LeastTag(others);
      least := if Before(m, t) then m else t;
    }
  }

  function Least(tags: set<Tag>): (least: Tag)
    requires tags != {}
    ensures least in tags && forall t :: t in tags ==> Before(least, t)
  {
    assert exists t :: t in tags && forall u :: u in tags ==> Before(t, u) by {
      var least := LeastTag(tags);
    }
    var least :| least in tags && forall u :: u in tags ==> Before(least, u);
    least
  }

  function SortedTags(tags: set<Tag>): (sorted: seq<Tag>)
    ensures forall t :: t in sorted <==> t in tags
    ensures forall i, j :: 0 <= i < j < |sorted| ==> sorted[i] != sorted[j] && Before(sorted[i], sorted[j])
    decreases |tags|
  {
    if tags == {} then []
    else
      var others := SortedTags(tags - {Least(tags)});
      [Least(tags)] + others
  }

  /** The element `put(tag, v)` writes: a dict in tag order, a list with anonymous members. */
  function WireOf(tag: Tag, v: Value): Wire
    decreases v, 0
  {
    match v
    case Plain(s) => Leaf(tag, s)
    case Dict(fields) => Container(tag, Structure, DictMembers(v, SortedTags(fields.Keys)))
    case List(elements) => Container(tag, Array, ListMembers(elements))
    case TlvList(items) => Container(tag, Path, PathMembers(items))
  }

  function DictMembers(v: Value, tags: seq<Tag>): (ws: seq<Wire>)
    requires v.Dict? && forall t :: t in tags ==> t in v.fields
    decreases v, 0, |tags|
  {
    if tags == [] then [] else [WireOf(tags[0], v.fields[tags[0]])] + DictMembers(v, tags[1..])
  }

  function ListMembers(elements: seq<Value>): (ws: seq<Wire>)
    decreases elements, 1
  {
    if elements == [] then [] else [WireOf(Anonymous, elements[0])] + ListMembers(elements[1..])
  }

  function PathMembers(items: seq<Item>): (ws: seq<Wire>)
    decreases items, 1
  {
    if items == [] then []
    else
      assert items decreases to items[0];
      assert items[0] decreases to items[0].value;
      [WireOf(items[0].tag, items[0].value)] + PathMembers(items[1..])
  }

  predicate HasTlvList(v: Value)
    decreases v, 0
  {
    match v
    case Plain(_) => false
    case Dict(fields) => exists t :: t in fields && HasTlvList(fields[t])
    case List(elements) => exists i :: 0 <= i < |elements| && HasTlvList(elements[i])
    case TlvList(_) => true
  }

  /** Writing keeps the value: the element a value is written as means that value. */
  lemma {:induction false} WireKeepsMeaning(tag: Tag, v: Value)
    ensures HasPath(WireOf(tag, v)) <==> HasTlvList(v)
    ensures !HasTlvList(v) ==> Meaning(WireOf(tag, v)) == v
    decreases v, 0
  {
    match v
    case Plain(_) =>
    case Dict(fields) =>
      DictKeepsMeaning(v, SortedTags(fields.Keys), map[]);
      DictMeaning(tag, v);
    case List(elements) =>
      ListKeepsMeaning(elements, []);
      assert [] + elements == elements;
    case TlvList(_) =>
  }

  function Restricted(v: Value, tags: seq<Tag>): map<Tag, Value>
    requires v.Dict? && forall t :: t in tags ==> t in v.fields
  {
    map t | t in tags :: v.fields[t]
  }

  lemma RestrictedStep(v: Value, tags: seq<Tag>, done: map<Tag, Value>)
    requires v.Dict? && tags != [] && forall t :: t in tags ==> t in v.fields
    ensures forall t :: t in tags <==> t == tags[0] || t in tags[1..]
    ensures done + Restricted(v, tags) == done[tags[0] := v.fields[tags[0]]] + Restricted(v, tags[1..])
  {
    assert forall t :: t in tags ==> t == tags[0] || t in tags[1..];
  }

  lemma StoreFirst(out: Value, w: Wire, ws: seq<Wire>)
    ensures AnyHasPath([w] + ws) <==> HasPath(w) || AnyHasPath(ws)
    ensures !AnyHasPath([w] + ws) ==> StoreAll(out, [w] + ws) == StoreAll(Store(out, w.tag, Meaning(w)), ws)
  {
    assert ([w] + ws)[1..] == ws;
  }

  lemma DictMeaning(tag: Tag, v: Value)
    requires v.Dict?
    ensures var tags := SortedTags(v.fields.Keys);
            && (HasTlvList(v) <==> exists t :: t in tags && HasTlvList(v.fields[t]))
            && (!AnyHasPath(DictMembers(v, tags)) &&
                StoreAll(Dict(map[]), DictMembers(v, tags)) == Dict(map[] + Restricted(v, tags))
                ==> Meaning(WireOf(tag, v)) == v)
  {
    hide SortedTags, DictMembers, StoreAll, AnyHasPath, Store, Least;
    var tags := SortedTags(v.fields.Keys);
    assert Restricted(v, tags).Keys == v.fields.Keys;
    assert map[] + Restricted(v, tags) == v.fields;
  }

  lemma {:induction false} DictKeepsMeaning(v: Value, tags: seq<Tag>, done: map<Tag, Value>)
    requires v.Dict? && forall t :: t in tags ==> t in v.fields
    ensures AnyHasPath(DictMembers(v, tags)) <==> exists t :: t in tags && HasTlvList(v.fields[t])
    ensures !AnyHasPath(DictMembers(v, tags)) ==>
              StoreAll(Dict(done), DictMembers(v, tags)) == Dict(done + Restricted(v, tags))
    decreases v, 0, |tags|
  {
    if tags == [] {
      assert done + Restricted(v, tags) == done;
    } else {
      var first := v.fields[tags[0]];
      WireKeepsMeaning(tags[0], first);
      DictKeepsMeaning(v, tags[1..], done[tags[0] := first]);
      StoreFirst(Dict(done), WireOf(tags[0], first), DictMembers(v, tags[1..]));
      RestrictedStep(v, tags, done);
    }
  }

  lemma {:induction false} ListKeepsMeaning(elements: seq<Value>, done: seq<Value>)
    ensures AnyHasPath(ListMembers(elements)) <==> exists i :: 0 <= i < |elements| && HasTlvList(elements[i])
    ensures !AnyHasPath(ListMembers(elements)) ==>
              StoreAll(List(done), ListMembers(elements)) == List(done + elements)
    decreases elements, 1
  {
    if elements == [] {
      assert done + elements == done;
    } else {
      WireKeepsMeaning(Anonymous, elements[0]);
      ListKeepsMeaning(elements[1..], done + [elements[0]]);
      StoreFirst(List(done), WireOf(Anonymous, elements[0]), ListMembers(elements[1..]));
      assert done + [elements[0]] + elements[1..] == done + elements;
      assert forall i :: 0 < i < |elements| ==> elements[i] == elements[1..][i - 1];
    }
  }

  /**
   The codec's law for whole values: reading what `put` writes, followed by any bytes,
   gives the value back and stops right behind it, if and only if no TLV list is inside.
   */
  lemma ValueRoundTrip(tag: Tag, v: Value, rest: seq<Byte>)
    requires Printable(WireOf(tag, v))
    ensures ParseElement(Print(WireOf(tag, v)) + rest) ==
            if HasTlvList(v) then Failed(ValueError) else Element(tag, v, |Print(WireOf(tag, v))|)
  {
    WireKeepsMeaning(tag, v);
    PrintThenParse(WireOf(tag, v), rest);
  }
}
