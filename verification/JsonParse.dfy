/**
 `JSON.parse` for the texts of json-utils.ts: tokens, their meanings, and a grammar over
 the meanings whose parser is proved to be the exact inverse of its printer.
 */
module JsonParse {
  import opened Wrappers
  import opened Numerals
  import opened JsonText

  // ----- Splitting a text into tokens -----

  function WordRun(s: string): (k: nat)
    ensures k <= |s|
  {
    if s == "" || !IsLetter(s[0]) then 0 else 1 + WordRun(s[1..])
  }

  function NumberToken(minus: bool, s: string): Token
    requires s != "" && IsDigit(s[0])
  {
    var k := DigitRun(s);
    var f := k + FractionLength(s[k..]);
    Num(minus, s[..k], s[k..f], s[f..NumberLength(s)])
  }

  function Cons<T>(x: T, xs: Option<seq<T>>): Option<seq<T>> {
    if xs.None? then None else Some([x] + xs.value)
  }

  function Lex(s: string): Option<seq<Token>>
    decreases |s|
  {
    if s == "" then Some([])
    else if s[0] == '"' then
      var k := RawLength(s[1..]);
      if k.None? then None else Cons(Str(s[1..][..k.value]), Lex(s[1..][k.value + 1..]))
    else if IsDigit(s[0]) then Cons(NumberToken(false, s), Lex(s[NumberLength(s)..]))
    else if s[0] == '-' && |s| > 1 && IsDigit(s[1]) then
      Cons(NumberToken(true, s[1..]), Lex(s[1..][NumberLength(s[1..])..]))
    else if IsLetter(s[0]) then Cons(Word(s[..1 + WordRun(s[1..])]), Lex(s[1..][WordRun(s[1..])..]))
    else if IsPunct(s[0]) then Cons(Punct(s[0]), Lex(s[1..]))
    else None
  }

  // ----- What a token means -----

  datatype Lexeme =
    | LStr(s: string)
    | LNum(n: int)
    | LFloat(literal: string)
    | LWord(letters: string)
    | LPunct(c: char)

  /** One character as `JSON.stringify` writes it. */
  function Escape(c: char): string {
    if c == '"' then "\\\""
    else if c == '\\' then "\\\\"
    else if c == '\U{0008}' then "\\b"
    else if c == '\U{000C}' then "\\f"
    else if c == '\n' then "\\n"
    else if c == '\r' then "\\r"
    else if c == '\t' then "\\t"
    else if c < ' ' then "\\u00" + [HexDigit(c as int / 16), HexDigit(c as int % 16)]
    else [c]
  }

  function EscapeAll(s: string): string {
    if s == "" then "" else Escape(s[0]) + EscapeAll(s[1..])
  }

  /** A character and the raw characters it takes up; none where the escape is not valid. */
  function UnescapeFirst(raw: string): (r: Option<(char, nat)>)
    requires raw != ""
    ensures r.Some? ==> 0 < r.value.1 <= |raw|
  {
    if raw[0] != '\\' then
      if raw[0] < ' ' then None else Some((raw[0], 1))
    else if |raw| < 2 then None
    else
      match raw[1]
      case '"' => Some(('"', 2))
      case '\\' => Some(('\\', 2))
      case '/' => Some(('/', 2))
      case 'b' => Some(('\U{0008}', 2))
      case 'f' => Some(('\U{000C}', 2))
      case 'n' => Some(('\n', 2))
      case 'r' => Some(('\r', 2))
      case 't' => Some(('\t', 2))
      case 'u' =>
        if |raw| < 6 || exists i :: 2 <= i < 6 && HexValue(raw[i]) < 0 then None
        else
          var code := ((HexValue(raw[2]) * 16 + HexValue(raw[3])) * 16 + HexValue(raw[4])) * 16 + HexValue(raw[5]);
          if 0 <= code < 0xD800 || 0xE000 <= code < 0x10000 then Some((code as char, 6)) else None
      case _ => None
  }

  function Unescape(raw: string): Option<string>
    decreases |raw|
  {
    if raw == "" then Some("")
    else
      var first := UnescapeFirst(raw);
      if first.None? then None else Cons(first.value.0, Unescape(raw[first.value.1..]))
  }

  /** Integers outside the safe range are rounded by `JSON.parse`; like fractions, they are kept as written. */
  function MeaningOf(t: Token): Option<Lexeme> {
    if !ValidToken(t) then None
    else
    match t
    case Str(raw) => var s := Unescape(raw); if s.None? then None else Some(LStr(s.value))
    case Num(minus, digits, fraction, exponent) =>
      if |digits| > 1 && digits[0] == '0' then None
      else if fraction == "" && exponent == "" && Safe(LiteralValue(minus, digits)) && (minus ==> digits != "0") then
        Some(LNum(LiteralValue(minus, digits)))
      else Some(LFloat(TokenText(t)))
    case Word(letters) => Some(LWord(letters))
    case Punct(c) => Some(LPunct(c))
  }

  /** The meanings of the tokens other than white space. */
  function Lexemes(ts: seq<Token>): Option<seq<Lexeme>> {
    if ts == [] then Some([])
    else if ts[0].Punct? && ts[0].c in " \t\n\r" then Lexemes(ts[1..])
    else
      var first := MeaningOf(ts[0]);
      if first.None? then None else Cons(first.value, Lexemes(ts[1..]))
  }

  // ----- Values -----

  datatype Json =
    | JNull
    | JBool(b: bool)
    | JInt(n: int)
    | JFloat(literal: string)
    | JStr(s: string)
    | JArr(items: seq<Json>)
    | JObj(members: seq<Member>)

  datatype Member = Member(key: string, value: Json)

  function LexemesOf(v: Json): (ls: seq<Lexeme>)
    ensures ls != []
    decreases v, 0
  {
    match v
    case JNull => [LWord("null")]
    case JBool(b) => [LWord(if b then "true" else "false")]
    case JInt(n) => [LNum(n)]
    case JFloat(literal) => [LFloat(literal)]
    case JStr(s) => [LStr(s)]
    case JArr(items) => if items == [] then [LPunct('['), LPunct(']')] else [LPunct('[')] + ItemLexemes(items)
    case JObj(members) => if members == [] then [LPunct('{'), LPunct('}')] else [LPunct('{')] + MemberLexemes(members)
  }

  /** The items with their commas and the closing bracket. */
  function ItemLexemes(items: seq<Json>): seq<Lexeme>
    requires items != []
    decreases items, 1
  {
    LexemesOf(items[0])
    + if |items| == 1 then [LPunct(']')] else [LPunct(',')] + ItemLexemes(items[1..])
  }

  function MemberLexemes(members: seq<Member>): seq<Lexeme>
    requires members != []
    decreases members, 1
  {
    assert members decreases to members[0];
    assert members[0] decreases to members[0].value;
    [LStr(members[0].key), LPunct(':')] + LexemesOf(members[0].value)
    + if |members| == 1 then [LPunct('}')] else [LPunct(',')] + MemberLexemes(members[1..])
  }

  function ParseValue(ls: seq<Lexeme>): (r: Option<(Json, seq<Lexeme>)>)
    ensures r.Some? ==> |r.value.1| < |ls|
    decreases |ls|, 0
  {
    if ls == [] then None
    else
      match ls[0]
      case LStr(s) => Some((JStr(s), ls[1..]))
      case LNum(n) => Some((JInt(n), ls[1..]))
      case LFloat(literal) => Some((JFloat(literal), ls[1..]))
      case LWord(w) =>
        if w == "null" then Some((JNull, ls[1..]))
        else if w == "true" then Some((JBool(true), ls[1..]))
        else if w == "false" then Some((JBool(false), ls[1..]))
        else None
      case LPunct(c) =>
        if c == '[' then
          if |ls| > 1 && ls[1] == LPunct(']') then Some((JArr([]), ls[2..]))
          else
            var r := ParseItems(ls[1..]);
            if r.None? then None else Some((JArr(r.value.0), r.value.1))
        else if c == '{' then
          if |ls| > 1 && ls[1] == LPunct('}') then Some((JObj([]), ls[2..]))
          else
            var r := ParseMembers(ls[1..]);
            if r.None? then None else Some((JObj(r.value.0), r.value.1))
        else None
  }

  function ParseItems(ls: seq<Lexeme>): (r: Option<(seq<Json>, seq<Lexeme>)>)
    ensures r.Some? ==> r.value.0 != [] && |r.value.1| < |ls|
    decreases |ls|, 1
  {
    var first := ParseValue(ls);
    if first.None? || first.value.1 == [] then None
    else if first.value.1[0] == LPunct(']') then Some(([first.value.0], first.value.1[1..]))
    else if first.value.1[0] == LPunct(',') then
      var more := ParseItems(first.value.1[1..]);
      if more.None? then None else Some(([first.value.0] + more.value.0, more.value.1))
    else None
  }

  function ParseMembers(ls: seq<Lexeme>): (r: Option<(seq<Member>, seq<Lexeme>)>)
    ensures r.Some? ==> r.value.0 != [] && |r.value.1| < |ls|
    decreases |ls|, 1
  {
    if |ls| < 2 || !ls[0].LStr? || ls[1] != LPunct(':') then None
    else
      var first := ParseValue(ls[2..]);
      if first.None? || first.value.1 == [] then None
      else
        var member, rest := Member(ls[0].s, first.value.0), first.value.1;
        if rest[0] == LPunct('}') then Some(([member], rest[1..]))
        else if rest[0] == LPunct(',') then
          var more := ParseMembers(rest[1..]);
          if more.None? then None else Some(([member] + more.value.0, more.value.1))
        else None
  }

  /** `JSON.parse` without its reviver. */
  function Parse(text: string): Option<Json> {
    var ts := Lex(text);
    if ts.None? then None
    else
      var ls := Lexemes(ts.value);
      if ls.None? then None
      else
        var r := ParseValue(ls.value);
        if r.None? || r.value.1 != [] then None else Some(r.value.0)
  }

  lemma NothingLeft()
    ensures Outside("", false) == "" && Lex("") == Some([]) && Lexemes([]) == Some([])
  {
  }

  // ----- The parser inverts the printer, both ways -----

  lemma {:induction false} PrintedIsParsed(v: Json, rest: seq<Lexeme>)
    ensures ParseValue(LexemesOf(v) + rest) == Some((v, rest))
    decreases v, 0
  {
    var ls := LexemesOf(v) + rest;
    match v
    case JArr(items) =>
      if items == [] {
        assert ls[2..] == rest;
      } else {
        assert ls[1..] == ItemLexemes(items) + rest;
        PrintedItemsAreParsed(items, rest);
        NoCloseFirst(items[0]);
      }
    case JObj(members) =>
      if members == [] {
        assert ls[2..] == rest;
      } else {
        assert ls[1..] == MemberLexemes(members) + rest;
        PrintedMembersAreParsed(members, rest);
      }
    case _ =>
      assert ls[1..] == rest;
  }

  lemma NoCloseFirst(v: Json)
    ensures LexemesOf(v)[0] != LPunct(']')
  {
  }

  lemma {:induction false} PrintedItemsAreParsed(items: seq<Json>, rest: seq<Lexeme>)
    requires items != []
    ensures ParseItems(ItemLexemes(items) + rest) == Some((items, rest))
    decreases items, 1
  {
    hide ParseValue, LexemesOf;
    var after := if |items| == 1 then [LPunct(']')] else [LPunct(',')] + ItemLexemes(items[1..]);
    assert ItemLexemes(items) + rest == LexemesOf(items[0]) + (after + rest);
    PrintedIsParsed(items[0], after + rest);
    if |items| == 1 {
      assert (after + rest)[1..] == rest;
      assert [items[0]] == items;
    } else {
      assert (after + rest)[1..] == ItemLexemes(items[1..]) + rest;
      PrintedItemsAreParsed(items[1..], rest);
      assert [items[0]] + items[1..] == items;
    }
  }

  /** What follows the value of the first member. */
  lemma MemberStarts(members: seq<Member>, rest: seq<Lexeme>) returns (tail: seq<Lexeme>)
    requires members != []
    ensures var ls := MemberLexemes(members) + rest;
            && |ls| > 2 && ls[0] == LStr(members[0].key) && ls[1] == LPunct(':')
            && ls[2..] == LexemesOf(members[0].value) + tail
    ensures tail != [] && tail[0] == LPunct(if |members| == 1 then '}' else ',')
    ensures tail[1..] == if |members| == 1 then rest else MemberLexemes(members[1..]) + rest
  {
    hide LexemesOf;
    var front := [LStr(members[0].key), LPunct(':')];
    var after := if |members| == 1 then [LPunct('}')] else [LPunct(',')] + MemberLexemes(members[1..]);
    tail := after + rest;
    assert MemberLexemes(members) == front + (LexemesOf(members[0].value) + after);
    assert MemberLexemes(members) + rest == front + (LexemesOf(members[0].value) + tail);
  }

  lemma {:induction false} PrintedMembersAreParsed(members: seq<Member>, rest: seq<Lexeme>)
    requires members != []
    ensures ParseMembers(MemberLexemes(members) + rest) == Some((members, rest))
    decreases members, 1
  {
    assert members decreases to members[0];
    assert members[0] decreases to members[0].value;
    hide ParseValue, LexemesOf, MemberLexemes, ParseMembers;
    var tail := MemberStarts(members, rest);
    PrintedIsParsed(members[0].value, tail);
    MemberIsParsed(MemberLexemes(members) + rest, members[0], tail);
    if |members| == 1 {
      assert [members[0]] == members;
    } else {
      PrintedMembersAreParsed(members[1..], rest);
      assert [members[0]] + members[1..] == members;
    }
  }

  lemma MemberIsParsed(ls: seq<Lexeme>, member: Member, tail: seq<Lexeme>)
    requires |ls| > 2 && ls[0] == LStr(member.key) && ls[1] == LPunct(':') && tail != []
    requires ParseValue(ls[2..]) == Some((member.value, tail))
    ensures tail[0] == LPunct('}') ==> ParseMembers(ls) == Some(([member], tail[1..]))
    ensures tail[0] == LPunct(',') && ParseMembers(tail[1..]).Some? ==>
              var more := ParseMembers(tail[1..]).value;
              ParseMembers(ls) == Some(([member] + more.0, more.1))
  {
    hide ParseValue;
  }

  lemma {:induction false} ParsedIsPrinted(ls: seq<Lexeme>)
    requires ParseValue(ls).Some?
    ensures var (v, rest) := ParseValue(ls).value; ls == LexemesOf(v) + rest
    decreases |ls|, 0
  {
    if ls[0] == LPunct('[') && !(|ls| > 1 && ls[1] == LPunct(']')) {
      ParsedItemsArePrinted(ls[1..]);
    } else if ls[0] == LPunct('{') && !(|ls| > 1 && ls[1] == LPunct('}')) {
      ParsedMembersArePrinted(ls[1..]);
    }
  }

  lemma {:induction false} ParsedItemsArePrinted(ls: seq<Lexeme>)
    requires ParseItems(ls).Some?
    ensures var (items, rest) := ParseItems(ls).value; items != [] && ls == ItemLexemes(items) + rest
    decreases |ls|, 1
  {
    hide ParseValue, LexemesOf;
    ParsedIsPrinted(ls);
    var (v, after) := ParseValue(ls).value;
    if after[0] == LPunct(',') {
      ParsedItemsArePrinted(after[1..]);
      var (items, rest) := ParseItems(ls).value;
      assert items[1..] == ParseItems(after[1..]).value.0;
    }
  }

  lemma {:induction false} ParsedMembersArePrinted(ls: seq<Lexeme>)
    requires ParseMembers(ls).Some?
    ensures var (members, rest) := ParseMembers(ls).value; members != [] && ls == MemberLexemes(members) + rest
    decreases |ls|, 1
  {
    hide ParseValue, LexemesOf;
    ParsedIsPrinted(ls[2..]);
    var (v, after) := ParseValue(ls[2..]).value;
    if after[0] == LPunct(',') {
      ParsedMembersArePrinted(after[1..]);
      var (members, rest) := ParseMembers(ls).value;
      assert members[1..] == ParseMembers(after[1..]).value.0;
    }
  }
}
