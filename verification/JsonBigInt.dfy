/**
 `toBigIntAwareJson` and `parseBigIntAwareJson` of packages/ws-client/src/json-utils.ts.

 The printer lets `JSON.stringify` write a quoted hexadecimal placeholder for every large
 integer and then replaces the placeholders textually. The parser marks large integers,
 parses, and revives the marked strings.
 */
module JsonBigInt {
  import opened Wrappers
  import opened Numerals
  import opened JsonText
  import opened JsonParse
  import opened JsonIntegers

  function Placeholder(n: nat): string {
    "0x" + Hex(n)
  }

  // ----- The values the printer takes -----

  predicate Large(n: int) {
    n > MAX_SAFE_INTEGER
  }

  /** The token of a literal. */
  function LiteralToken(literal: string): Token {
    if literal != "" && IsDigit(literal[0]) then NumberToken(false, literal)
    else if |literal| > 1 && literal[0] == '-' && IsDigit(literal[1]) then NumberToken(true, literal[1..])
    else Word(literal)
  }

  /** A number with a fraction or an exponent: what `JSON.stringify` writes unless it writes an integer. */
  predicate FloatLiteral(literal: string) {
    var t := LiteralToken(literal);
    t.Num? && (t.fraction != "" || t.exponent != "") && MeaningOf(t) == Some(LFloat(literal))
  }

  /** A floating-point number that is no integer stands for itself by the literal it is written as. */
  predicate Printable(v: Json)
    decreases v, 0
  {
    match v
    case JFloat(literal) => FloatLiteral(literal)
    case JArr(items) => forall i :: 0 <= i < |items| ==> Printable(items[i])
    case JObj(members) => forall i :: 0 <= i < |members| ==> PrintableMember(members[i])
    case _ => true
  }

  predicate PrintableMember(m: Member)
    decreases m, 1
  {
    Printable(m.value)
  }

  // ----- The printer -----

  /** A lexeme as the replacer of `JSON.stringify` leaves it. */
  function Held(l: Lexeme): Lexeme {
    if l.LNum? && Large(l.n) then LStr(Placeholder(l.n)) else l
  }

  function TokenOf(l: Lexeme): Token {
    match l
    case LStr(s) => Str(EscapeAll(s))
    case LNum(n) => Num(n < 0, Decimal(if n < 0 then -n else n), "", "")
    case LFloat(literal) => LiteralToken(literal)
    case LWord(letters) => Word(letters)
    case LPunct(c) => Punct(c)
  }

  function Tokens(ls: seq<Lexeme>): (ts: seq<Token>)
    ensures |ts| == |ls| && forall i :: 0 <= i < |ls| ==> ts[i] == TokenOf(ls[i])
  {
    if ls == [] then [] else [TokenOf(ls[0])] + Tokens(ls[1..])
  }

  function HeldAll(ls: seq<Lexeme>): (r: seq<Lexeme>)
    ensures |r| == |ls| && forall i :: 0 <= i < |ls| ==> r[i] == Held(ls[i])
  {
    if ls == [] then [] else [Held(ls[0])] + HeldAll(ls[1..])
  }

  /** `JSON.stringify` with the replacer, without white space. */
  function Stringify(v: Json): string {
    Text(Tokens(HeldAll(LexemesOf(v))))
  }

  /** The replacements the replacer collects, in the order it meets the integers. */
  function LargeIntegers(ls: seq<Lexeme>): (ns: seq<nat>)
    ensures forall n :: n in ns <==> Large(n) && LNum(n) in ls
  {
    if ls == [] then []
    else if ls[0].LNum? && Large(ls[0].n) then [ls[0].n] + LargeIntegers(ls[1..])
    else LargeIntegers(ls[1..])
  }

  function Quoted(n: nat): (s: string)
    ensures s != "" && s[0] == '"'
  {
    "\"" + Placeholder(n) + "\""
  }

  /** `String.prototype.replaceAll` with a string pattern. */
  function ReplaceAll(s: string, from: string, to: string): string
    requires from != ""
    decreases |s|
  {
    if s == "" then ""
    else if from <= s then to + ReplaceAll(s[|from|..], from, to)
    else [s[0]] + ReplaceAll(s[1..], from, to)
  }

  function ReplaceEach(s: string, ns: seq<nat>): string
    decreases |ns|
  {
    if ns == [] then s else ReplaceEach(ReplaceAll(s, Quoted(ns[0]), Decimal(ns[0])), ns[1..])
  }

  function ToJson(v: Json): string {
    ReplaceEach(Stringify(v), LargeIntegers(LexemesOf(v)))
  }

  /**
   What `JSON.stringify` writes for `Number(n)`: safe integers as they are, lower ones with
   rounded digits, with an exponent, or as null. How they are rounded is left open, and the
   integers that become placeholders are not touched.
   */
  ghost predicate Rounding(number: int -> Json) {
    forall n ::
      if n >= MIN_SAFE_INTEGER then number(n) == JInt(n)
      else
        match number(n)
        case JInt(m) => !Large(m)
        case JFloat(literal) => FloatLiteral(literal)
        case JNull => true
        case _ => false
  }

  /** What `toBigIntAwareJson` returns. */
  function Sent(v: Json, number: int -> Json): string {
    ToJson(MapIntegers(v, number))
  }

  // ----- The parser -----

  predicate HasMarker(s: string) {
    BIGINT_MARKER <= s
  }

  /** `BigInt(s)` for an optional minus sign and digits; the other forms it takes are not modelled. */
  function BigIntOf(s: string): Option<int> {
    var minus := s != "" && s[0] == '-';
    var digits := if minus then s[1..] else s;
    if digits != "" && AllDigits(digits) then Some(LiteralValue(minus, digits)) else None
  }

  /** The reviver, applied to every value; none when `BigInt` refuses a marked string. */
  function Revive(v: Json): Option<Json>
    decreases v, 0
  {
    match v
    case JStr(s) =>
      if !HasMarker(s) then Some(v)
      else
        var n := BigIntOf(s[|BIGINT_MARKER|..]);
        if n.None? then None else Some(JInt(n.value))
    case JArr(items) =>
      var r := ReviveItems(items);
      if r.None? then None else Some(JArr(r.value))
    case JObj(members) =>
      var r := ReviveMembers(members);
      if r.None? then None else Some(JObj(r.value))
    case _ => Some(v)
  }

  function ReviveItems(items: seq<Json>): (r: Option<seq<Json>>)
    ensures r.Some? ==> |r.value| == |items|
    decreases items, 1
  {
    if items == [] then Some([])
    else
      var first := Revive(items[0]);
      if first.None? then None else Cons(first.value, ReviveItems(items[1..]))
  }

  function ReviveMembers(members: seq<Member>): (r: Option<seq<Member>>)
    ensures r.Some? ==> |r.value| == |members|
    decreases members, 1
  {
    if members == [] then Some([])
    else
      assert members decreases to members[0];
      assert members[0] decreases to members[0].value;
      var first := Revive(members[0].value);
      if first.None? then None else Cons(Member(members[0].key, first.value), ReviveMembers(members[1..]))
  }

  function FromJson(text: string): Option<Json> {
    var v := Parse(Outside(text, false));
    if v.None? then None else Revive(v.value)
  }

  // ----- When the round trip holds -----

  predicate EndsWith(s: string, t: string) {
    |t| <= |s| && s[|s| - |t|..] == t
  }

  /** The text of `s` contains the quoted placeholder of `n`. */
  predicate Clashes(s: string, n: nat) {
    s == Placeholder(n) || EndsWith(s, "\"" + Placeholder(n))
  }

  /** No string and no key is mistaken for the placeholder of an integer in the value. */
  ghost predicate NoClash(v: Json) {
    forall s, n :: LStr(s) in LexemesOf(v) && n in LargeIntegers(LexemesOf(v)) ==> !Clashes(s, n)
  }

  /** No string value, as opposed to a key, looks like a marked integer. */
  predicate NoMarker(v: Json)
    decreases v, 0
  {
    match v
    case JStr(s) => !HasMarker(s)
    case JArr(items) => forall i :: 0 <= i < |items| ==> NoMarker(items[i])
    case JObj(members) => forall i :: 0 <= i < |members| ==> NoMarkerIn(members[i])
    case _ => true
  }

  predicate NoMarkerIn(m: Member)
    decreases m, 1
  {
    NoMarker(m.value)
  }

  /** No integer is changed by `Number`. */
  predicate Kept(v: Json, number: int -> Json)
    decreases v, 0
  {
    match v
    case JInt(n) => number(n) == v
    case JArr(items) => forall i :: 0 <= i < |items| ==> Kept(items[i], number)
    case JObj(members) => forall i :: 0 <= i < |members| ==> KeptIn(members[i], number)
    case _ => true
  }

  predicate KeptIn(m: Member, number: int -> Json)
    decreases m, 1
  {
    Kept(m.value, number)
  }
}
