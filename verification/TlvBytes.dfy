/**
 The TLV wire form in plain numbers, as Appendix A of the Matter Core Specification lays it
 out: what the writer emits for every element, and what the reader makes of every first
 byte, whether the writer would have emitted it or not.
 */
module TlvBytes {
  import opened Wrappers
  import opened TlvFormat

  // ----- What the writer emits -----

  /** A type code without a tag, or with bit 5 set and the tag behind it. */
  function Headed(tag: Tag, code: Byte): seq<Byte>
    requires code < 0x20 && (tag.Context? ==> 0 <= tag.number <= 0xFF)
  {
    if tag.Anonymous? then [code] else [0x20 + code, tag.number]
  }

  function Two(n: nat): seq<Byte>
    requires n <= 0xFFFF
  {
    [n % 0x100, n / 0x100]
  }

  function Four(n: nat): seq<Byte>
    requires n <= 0xFFFF_FFFF
  {
    Two(n % 0x1_0000) + Two(n / 0x1_0000)
  }

  function Eight(n: nat): seq<Byte>
    requires n <= 0xFFFF_FFFF_FFFF_FFFF
  {
    Four(n % 0x1_0000_0000) + Four(n / 0x1_0000_0000)
  }

  /** The least of the widths that hold `n`, as the distance of the type code from the one-byte form. */
  function Size(n: nat): nat {
    if n <= 0xFF then 0 else if n <= 0xFFFF then 1 else if n <= 0xFFFF_FFFF then 2 else 3
  }

  function Sized(n: nat): seq<Byte>
    requires n <= 0xFFFF_FFFF_FFFF_FFFF
  {
    if n <= 0xFF then [n] else if n <= 0xFFFF then Two(n) else if n <= 0xFFFF_FFFF then Four(n) else Eight(n)
  }

  function SignedSize(i: int): nat {
    if -0x80 <= i <= 0x7F then 0
    else if -0x8000 <= i <= 0x7FFF then 1
    else if -0x8000_0000 <= i <= 0x7FFF_FFFF then 2
    else 3
  }

  /** Two's complement: the remainder is not negative. */
  function SignedSized(i: int): seq<Byte> {
    if -0x80 <= i <= 0x7F then [i % 0x100]
    else if -0x8000 <= i <= 0x7FFF then Two(i % 0x1_0000)
    else if -0x8000_0000 <= i <= 0x7FFF_FFFF then Four(i % 0x1_0000_0000)
    else Eight(i % 0x1_0000_0000_0000_0000)
  }

  predicate Fits(s: Scalar) {
    match s
    case UInt(n) => n <= 0xFFFF_FFFF_FFFF_FFFF
    case SInt(i) => -0x8000_0000_0000_0000 <= i <= 0x7FFF_FFFF_FFFF_FFFF
    case Text(utf8) => |utf8| <= 0xFFFF_FFFF_FFFF_FFFF
    case Octets(data) => |data| <= 0xFFFF_FFFF_FFFF_FFFF
    case _ => true
  }

  /** The type code, with the size of a number or of a length in its two low bits. */
  function Code(s: Scalar): (code: Byte)
    ensures code < 0x15
  {
    match s
    case SInt(i) => 0x00 + SignedSize(i)
    case UInt(n) => 0x04 + Size(n)
    case Bool(false) => 0x08
    case Bool(true) => 0x09
    case Float32(_) => 0x0A
    case Float64(_) => 0x0B
    case Text(utf8) => 0x0C + Size(|utf8|)
    case Octets(data) => 0x10 + Size(|data|)
    case Null => 0x14
  }

  function Payload(s: Scalar): seq<Byte>
    requires Fits(s)
  {
    match s
    case SInt(i) => SignedSized(i)
    case UInt(n) => Sized(n)
    case Float32(raw) => raw
    case Float64(raw) => raw
    case Text(utf8) => Sized(|utf8|) + utf8
    case Octets(data) => Sized(|data|) + data
    case _ => []
  }

  /** What can be written: scalars that fit, and tags from 0 to 255 exactly where they belong. */
  predicate CanWrite(w: Wire)
    decreases w
  {
    && (w.tag.Context? ==> 0 <= w.tag.number <= 0xFF)
    && match w
       case Leaf(_, s) => Fits(s)
       case Container(_, kind, members) =>
         forall i :: 0 <= i < |members| ==>
           && CanWrite(members[i])
           && (kind == Structure ==> members[i].tag.Context?) && (kind == Array ==> members[i].tag.Anonymous?)
  }

  function Bytes(w: Wire): seq<Byte>
    requires CanWrite(w)
    decreases w, 0
  {
    match w
    case Leaf(tag, s) => Headed(tag, Code(s)) + Payload(s)
    case Container(tag, kind, members) =>
      Headed(tag, match kind case Structure => 0x15 case Array => 0x16 case Path => 0x17)
      + AllBytes(members) + [0x18]
  }

  function AllBytes(members: seq<Wire>): seq<Byte>
    requires forall i :: 0 <= i < |members| ==> CanWrite(members[i])
    decreases members, 1
  {
    if members == [] then [] else Bytes(members[0]) + AllBytes(members[1..])
  }

  lemma HeadIsPlain(tag: Tag, code: nat)
    requires TagInRange(tag) && code < 0x20
    ensures Head(tag, code) == Headed(tag, code)
  {
  }

  /** The low bytes come first. */
  lemma {:induction false} LowThenHigh(low: nat, high: nat, lower: nat, upper: nat)
    requires low < Span(lower)
    ensures LittleEndian(low + Span(lower) * high, lower + upper) == LittleEndian(low, lower) + LittleEndian(high, upper)
  {
    if lower == 0 {
      assert low + Span(lower) * high == high;
      assert [] + LittleEndian(high, upper) == LittleEndian(high, upper);
    } else {
      var k := Span(lower - 1) * high;
      assert low + Span(lower) * high == low + 0x100 * k by {
        assert Span(lower) * high == 0x100 * Span(lower - 1) * high;
      }
      Shifted(low, k);
      LowThenHigh(low / 0x100, high, lower - 1, upper);
      assert LittleEndian(low, lower) == [low % 0x100] + LittleEndian(low / 0x100, lower - 1);
    }
  }

  lemma Shifted(low: nat, k: nat)
    ensures (low + 0x100 * k) % 0x100 == low % 0x100 && (low + 0x100 * k) / 0x100 == low / 0x100 + k
  {
  }

  lemma OneByte(n: nat)
    requires n <= 0xFF
    ensures LittleEndian(n, 1) == [n]
  {
    assert LittleEndian(n / 0x100, 0) == [];
  }

  lemma TwoBytes(n: nat)
    requires n <= 0xFFFF
    ensures LittleEndian(n, 2) == Two(n)
  {
    Spans();
    LowThenHigh(n % 0x100, n / 0x100, 1, 1);
    OneByte(n % 0x100);
    OneByte(n / 0x100);
  }

  lemma FourBytes(n: nat)
    requires n <= 0xFFFF_FFFF
    ensures LittleEndian(n, 4) == Four(n)
  {
    hide LittleEndian, Two;
    Spans();
    LowThenHigh(n % 0x1_0000, n / 0x1_0000, 2, 2);
    TwoBytes(n % 0x1_0000);
    TwoBytes(n / 0x1_0000);
  }

  lemma EightBytes(n: nat)
    requires n <= 0xFFFF_FFFF_FFFF_FFFF
    ensures LittleEndian(n, 8) == Eight(n)
  {
    hide LittleEndian, Four;
    Spans();
    LowThenHigh(n % 0x1_0000_0000, n / 0x1_0000_0000, 4, 4);
    FourBytes(n % 0x1_0000_0000);
    FourBytes(n / 0x1_0000_0000);
  }

  lemma SizedBytes(n: nat)
    requires n <= 0xFFFF_FFFF_FFFF_FFFF
    ensures LittleEndian(n, UnsignedWidth(n)) == Sized(n)
    ensures forall code :: code in {0x04, 0x0C, 0x10} ==> ControlByte(code, UnsignedWidth(n)) == code + Size(n)
  {
    hide LittleEndian, Two, Four, Eight;
    if n <= 0xFF {
      OneByte(n);
    } else if n <= 0xFFFF {
      TwoBytes(n);
    } else if n <= 0xFFFF_FFFF {
      FourBytes(n);
    } else {
      EightBytes(n);
    }
  }

  lemma SignedBytes(i: int)
    requires -0x8000_0000_0000_0000 <= i <= 0x7FFF_FFFF_FFFF_FFFF
    ensures var width := SignedWidth(i);
            && 0 <= Unsigned(i, width)
            && LittleEndian(Unsigned(i, width), width) == SignedSized(i)
            && ControlByte(0x00, width) == 0x00 + SignedSize(i)
  {
    hide LittleEndian, Two, Four, Eight;
    Spans();
    var n := Unsigned(i, SignedWidth(i));
    if -0x80 <= i <= 0x7F {
      OneByte(n);
    } else if -0x8000 <= i <= 0x7FFF {
      TwoBytes(n);
    } else if -0x8000_0000 <= i <= 0x7FFF_FFFF {
      FourBytes(n);
    } else {
      EightBytes(n);
    }
  }

  /** The writer emits exactly these bytes, for exactly these elements. */
  lemma {:induction false} PrintIsBytes(w: Wire)
    ensures Printable(w) <==> CanWrite(w)
    ensures Printable(w) ==> Print(w) == Bytes(w)
    decreases w, 0
  {
    match w
    case Leaf(tag, s) => LeafIsBytes(tag, s);
    case Container(tag, kind, members) =>
      forall i | 0 <= i < |members|
        ensures Printable(members[i]) <==> CanWrite(members[i])
        ensures TagAllowed(Some(kind), members[i].tag) <==>
                && TagInRange(members[i].tag)
                && (kind == Structure ==> members[i].tag.Context?) && (kind == Array ==> members[i].tag.Anonymous?)
        ensures Printable(members[i]) ==> TagInRange(members[i].tag)
      {
        assert w decreases to members[i];
        PrintIsBytes(members[i]);
      }
      if Printable(w) {
        MembersAreBytes(kind, members);
        HeadIsPlain(tag, ContainerType(kind));
      }
  }

  lemma {:induction false} MembersAreBytes(kind: Kind, members: seq<Wire>)
    requires MembersPrintable(kind, members) && forall i :: 0 <= i < |members| ==> CanWrite(members[i])
    ensures PrintMembers(kind, members) == AllBytes(members)
    decreases members, 1
  {
    hide Print, Bytes, Printable, CanWrite;
    if members != [] {
      PrintIsBytes(members[0]);
      MembersAreBytes(kind, members[1..]);
    }
  }

  lemma LeafIsBytes(tag: Tag, s: Scalar)
    ensures Printable(Leaf(tag, s)) <==> CanWrite(Leaf(tag, s))
    ensures CanWrite(Leaf(tag, s)) ==> Print(Leaf(tag, s)) == Bytes(Leaf(tag, s))
  {
    ScalarIsPlain(s);
    hide ScalarFits, Fits, ScalarControl, Code, ScalarPayload, Payload;
    if CanWrite(Leaf(tag, s)) {
      HeadIsPlain(tag, ScalarControl(s));
    }
  }

  lemma ScalarIsPlain(s: Scalar)
    ensures ScalarFits(s) <==> Fits(s)
    ensures Fits(s) ==> ScalarControl(s) == Code(s) && ScalarPayload(s) == Payload(s)
  {
    FloatCodes();
    hide LittleEndian, Sized, SignedSized, ControlByte, Unsigned, Size, SignedSize;
    if Fits(s) {
      match s
      case UInt(n) => SizedBytes(n);
      case SInt(i) => SignedBytes(i);
      case Text(utf8) => SizedBytes(|utf8|);
      case Octets(data) => SizedBytes(|data|);
      case _ =>
    }
  }

  lemma FloatCodes()
    ensures ControlByte(TYPE_FLOATING_POINT, 4) == 0x0A && ControlByte(TYPE_FLOATING_POINT, 8) == 0x0B
  {
  }

  /** A dictionary is written with its anonymous entry first and the others by ascending number. */
  lemma EntriesAscend(tags: set<Tag>, i: nat, j: nat)
    requires i < j < |SortedTags(tags)|
    ensures var a, b := SortedTags(tags)[i], SortedTags(tags)[j];
            && (a.Context? && b.Context? ==> a.number < b.number)
            && (b.Anonymous? ==> a.number < -1)
  {
    assert Before(SortedTags(tags)[i], SortedTags(tags)[j]);
  }

  /** At the top there are no tags, in a structure there must be one, in an array there must be none. */
  lemma TagPlaces(tag: Tag)
    ensures TagAllowed(None, tag) <==> tag.Anonymous?
    ensures TagAllowed(Some(Structure), tag) <==> tag.Context? && 0 <= tag.number <= 0xFF
    ensures TagAllowed(Some(Array), tag) <==> tag.Anonymous?
    ensures TagAllowed(Some(Path), tag) <==> tag.Anonymous? || 0 <= tag.number <= 0xFF
  {
  }

  // ----- What the reader makes of every byte -----

  function Pair(b: seq<Byte>, k: nat): nat
    requires k + 1 < |b|
  {
    var low: nat, high: nat := b[k], b[k + 1];
    low + 0x100 * high
  }

  /** A number of 1, 2, 4 or 8 bytes, the low byte first. */
  function Number(b: seq<Byte>, width: nat): nat
    requires width in {1, 2, 4, 8} && width <= |b|
  {
    if width == 1 then b[0]
    else if width == 2 then Pair(b, 0)
    else if width == 4 then Pair(b, 0) + 0x1_0000 * Pair(b, 2)
    else Pair(b, 0) + 0x1_0000 * Pair(b, 2) + 0x1_0000_0000 * Pair(b, 4) + 0x1_0000_0000_0000 * Pair(b, 6)
  }

  function SignedNumber(b: seq<Byte>, width: nat): int
    requires width in {1, 2, 4, 8} && width <= |b|
  {
    var n := Number(b, width);
    if width == 1 then if n < 0x80 then n else n - 0x100
    else if width == 2 then if n < 0x8000 then n else n - 0x1_0000
    else if width == 4 then if n < 0x8000_0000 then n else n - 0x1_0000_0000
    else if n < 0x8000_0000_0000_0000 then n else n - 0x1_0000_0000_0000_0000
  }

  function Untagged(v: Scalar, used: nat): Parsed {
    Element(Anonymous, Plain(v), used)
  }

  /** Python's slice of `n` bytes from `k`: whatever is there. */
  function Slice(b: seq<Byte>, k: nat, n: nat): seq<Byte>
    requires k <= |b|
  {
    if k + n <= |b| then b[k..k + n] else b[k..]
  }

  /** Every type code without a tag, whether the writer uses the form or not. */
  function CodeRead(code: Byte, b: seq<Byte>): Parsed
    requires code < 0x20 && code != 0x15 && code != 0x16
  {
    var width := if code % 4 == 0 then 1 else if code % 4 == 1 then 2 else if code % 4 == 2 then 4 else 8;
    if code <= 0x07 || 0x0C <= code <= 0x13 then
      if |b| < width then Failed(StructError)
      else if code <= 0x03 then Untagged(SInt(SignedNumber(b, width)), 1 + width)
      else if code <= 0x07 then Untagged(UInt(Number(b, width)), 1 + width)
      else if code <= 0x0F then Untagged(Text(Slice(b, width, Number(b, width))), 1 + width + Number(b, width))
      else Untagged(Octets(Slice(b, width, Number(b, width))), 1 + width + Number(b, width))
    else if code == 0x08 then Untagged(Bool(false), 1)
    else if code == 0x09 then Untagged(Bool(true), 1)
    else if code == 0x0A then if |b| < 4 then Failed(StructError) else Untagged(Float32(b[..4]), 5)
    else if code == 0x0B then if |b| < 8 then Failed(StructError) else Untagged(Float64(b[..8]), 9)
    else if code == 0x14 then Untagged(Null, 1)
    else if code == 0x18 then EndMarker(1)
    else Failed(ValueError)
  }

  lemma NumberIsRead(b: seq<Byte>, width: nat)
    requires width in {1, 2, 4, 8} && width <= |b|
    ensures FromLittleEndian(b[..width]) == Number(b, width)
    ensures Signed(Number(b, width), width) == SignedNumber(b, width)
  {
    Spans();
    Digit(b[..width]);
    if width >= 2 {
      Digit(b[..width][1..]);
    }
    if width >= 4 {
      Digit(b[..width][2..]);
      Digit(b[..width][3..]);
    }
    if width == 8 {
      Digit(b[..width][4..]);
      Digit(b[..width][5..]);
      Digit(b[..width][6..]);
      Digit(b[..width][7..]);
    }
  }

  lemma Digit(b: seq<Byte>)
    ensures b != [] ==> FromLittleEndian(b) == b[0] + 0x100 * FromLittleEndian(b[1..])
    ensures FromLittleEndian([]) == 0
    ensures forall k :: 0 <= k < |b| ==> b[k..] == if k == 0 then b else b[1..][k - 1..]
  {
  }

  function Built(elementType: nat, tag: Tag, head: nat, r: Result<(Value, nat)>): Parsed {
    if r.Err? then Failed(r.error)
    else if elementType == 0x18 then EndMarker(head + r.value.1)
    else Element(tag, r.value.0, head + r.value.1)
  }

  lemma ElementUnfolds(input: seq<Byte>, tag: Tag, head: nat)
    requires input != [] && head <= |input|
    requires if input[0] / 0x20 == 1 then head == 2 && tag == Context(input[1]) else head == 1 && tag == Anonymous
    ensures ParseElement(input) == Built(input[0] % 0x20, tag, head, ParseValue(input[0] % 0x20, input[head..]))
  {
    hide ParseValue;
  }

  /** What stands behind a head of one or two bytes makes the element. */
  lemma Behind(first: Byte, b: seq<Byte>, tag: Tag, head: nat)
    requires if first / 0x20 == 1 then b != [] && head == 2 && tag == Context(b[0]) else head == 1 && tag == Anonymous
    ensures ParseElement([first] + b) == Built(first % 0x20, tag, head, ParseValue(first % 0x20, b[head - 1..]))
  {
    hide ParseElement, ParseValue, Built;
    assert ([first] + b)[head..] == b[head - 1..];
    ElementUnfolds([first] + b, tag, head);
  }

  lemma CodeIsRead(code: Byte, b: seq<Byte>)
    requires code < 0x20 && code != 0x15 && code != 0x16
    ensures ParseElement([code] + b) == CodeRead(code, b)
  {
    hide ParseElement, ParseScalar, CodeRead;
    Behind(code, b, Anonymous, 1);
    assert b[0..] == b;
    if code <= 0x07 || 0x0C <= code <= 0x13 {
      SizedIsRead(code, b);
    } else {
      OtherIsRead(code, b);
    }
  }

  lemma OtherIsRead(code: Byte, b: seq<Byte>)
    requires 0x07 < code < 0x0C || 0x13 < code < 0x20
    requires code != 0x15 && code != 0x16
    ensures Built(code, Anonymous, 1, ParseValue(code, b)) == CodeRead(code, b)
  {
  }

  lemma SizedIsRead(code: Byte, b: seq<Byte>)
    requires code <= 0x07 || 0x0C <= code <= 0x13
    ensures Built(code, Anonymous, 1, ParseValue(code, b)) == CodeRead(code, b)
  {
    var width := WidthOfCode(code % 4);
    if width <= |b| {
      NumberIsRead(b, width);
      SliceIsTaken(b, width, Number(b, width));
    }
    hide FromLittleEndian, Signed, Number, SignedNumber, Slice, Take;
  }

  lemma SliceIsTaken(b: seq<Byte>, k: nat, n: nat)
    requires k <= |b|
    ensures Take(b[k..], n) == Slice(b, k, n)
  {
  }

  /** A structure and an array take the elements behind them, in order, until an end marker. */
  lemma ContainerIsRead(b: seq<Byte>)
    ensures ParseElement([0x15] + b) ==
            match ParseItems(b, Dict(map[]))
            case Broken(e) => Failed(e)
            case Collected(out, used) => Element(Anonymous, out, 1 + used)
    ensures ParseElement([0x16] + b) ==
            match ParseItems(b, List([]))
            case Broken(e) => Failed(e)
            case Collected(out, used) => Element(Anonymous, out, 1 + used)
  {
    assert ([0x15] + b)[1..] == b && ([0x16] + b)[1..] == b;
  }

  function Tagged(p: Parsed, tag: Tag): Parsed {
    match p
    case Failed(_) => p
    case EndMarker(used) => EndMarker(used + 1)
    case Element(_, v, used) => Element(tag, v, used + 1)
  }

  lemma TagIsMissing(input: seq<Byte>)
    requires |input| == 1 && input[0] / 0x20 == 1
    ensures ParseElement(input) == Failed(StructError)
  {
  }

  /** The upper three bits: 1 is a context tag in the next byte, and everything else counts as no tag. */
  lemma TagIsRead(first: Byte, b: seq<Byte>)
    ensures first / 0x20 != 1 ==> ParseElement([first] + b) == ParseElement([first % 0x20] + b)
    ensures first / 0x20 == 1 && b == [] ==> ParseElement([first] + b) == Failed(StructError)
    ensures first / 0x20 == 1 && b != [] ==>
              ParseElement([first] + b) == Tagged(ParseElement([first % 0x20] + b[1..]), Context(b[0]))
  {
    hide ParseElement, ParseValue;
    if first / 0x20 != 1 {
      Behind(first, b, Anonymous, 1);
      Behind(first % 0x20, b, Anonymous, 1);
    } else if b == [] {
      TagIsMissing([first] + b);
    } else {
      Behind(first, b, Context(b[0]), 2);
      Behind(first % 0x20, b[1..], Anonymous, 1);
    }
  }

  /** The empty dictionary is `15 18`, and an entry replaces an earlier one of the same tag. */
  lemma SmallDictionaries(u: Wire, w: Wire, rest: seq<Byte>)
    requires Printable(u) && Printable(w) && !HasPath(u) && !HasPath(w) && u.tag == w.tag
    ensures ParseElement([0x15, 0x18] + rest) == Element(Anonymous, Dict(map[]), 2)
    ensures var bytes := [0x15] + (Print(u) + (Print(w) + ([0x18] + rest)));
            ParseElement(bytes) == Element(Anonymous, Dict(map[w.tag := Meaning(w)]), |Print(u)| + |Print(w)| + 2)
  {
    hide Print, Printable, ParseElement, ParseItems, Meaning, HasPath;
    var end := [0x18] + rest;
    assert [0x15, 0x18] + rest == [0x15] + end;
    ContainerIsRead(end);
    ParseEnd(rest, Dict(map[]));
    ContainerIsRead(Print(u) + (Print(w) + end));
    PrintThenParse(u, Print(w) + end);
    PrintThenParse(w, end);
    ParseFirst(Print(u), Print(w) + end, Dict(map[]));
    var first := Dict(map[][u.tag := Meaning(u)]);
    ParseFirst(Print(w), end, first);
    ParseEnd(rest, Store(first, w.tag, Meaning(w)));
    assert map[][u.tag := Meaning(u)][w.tag := Meaning(w)] == map[w.tag := Meaning(w)];
  }
}
