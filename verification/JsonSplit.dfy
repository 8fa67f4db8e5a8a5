/**
 Every well-formed JSON text splits into tokens, so the scanner of
 packages/ws-client/src/json-utils.ts:62-151 is exact on all of them.
 */
module JsonSplit {
  import opened Wrappers
  import opened Numerals
  import opened Sequences
  import opened JsonText
  import opened JsonParse

  // ----- Well-formed texts -----

  /** Escapes of the JSON grammar; what `\u` and four digits denote does not matter. */
  predicate ValidEscapes(raw: string)
    decreases |raw|
  {
    raw == "" ||
    if raw[0] != '\\' then raw[0] >= ' ' && ValidEscapes(raw[1..])
    else if |raw| < 2 then false
    else if raw[1] == 'u' then
      |raw| >= 6 && (forall i :: 2 <= i < 6 ==> HexValue(raw[i]) >= 0) && ValidEscapes(raw[6..])
    else raw[1] in "\"\\/bfnrt" && ValidEscapes(raw[2..])
  }

  /** What a token stands for in the grammar, whatever a string says. */
  function ShapeOf(t: Token): Option<Lexeme> {
    if !t.Str? then MeaningOf(t)
    else if ValidToken(t) && ValidEscapes(t.raw) then Some(LStr(""))
    else None
  }

  function Shapes(ts: seq<Token>): Option<seq<Lexeme>> {
    if ts == [] then Some([])
    else if ts[0].Punct? && ts[0].c in " \t\n\r" then Shapes(ts[1..])
    else
      var first := ShapeOf(ts[0]);
      if first.None? then None else Cons(first.value, Shapes(ts[1..]))
  }

  /** The JSON grammar. */
  predicate WellFormed(text: string) {
    var ts := Lex(text);
    ts.Some? &&
    var ls := Shapes(ts.value);
    ls.Some? && ParseValue(ls.value).Some? && ParseValue(ls.value).value.1 == []
  }

  // ----- What was lexed is the text -----

  lemma {:induction false} LexedIsText(s: string)
    requires Lex(s).Some?
    ensures Text(Lex(s).value) == s
    decreases |s|
  {
    hide NumberToken, NumberLength, RawLength, WordRun, TokenText;
    if s != "" {
      var first, rest := FirstToken(s);
      LexedIsText(rest);
      assert Lex(s).value[1..] == Lex(rest).value;
      assert s == TokenText(first) + rest;
    }
  }

  /** The first token of a text and the text behind it. */
  lemma FirstToken(s: string) returns (first: Token, rest: string)
    requires s != "" && Lex(s).Some?
    ensures |rest| < |s| && s == TokenText(first) + rest
    ensures Lex(rest).Some? && Lex(s) == Some([first] + Lex(rest).value)
    ensures first.Punct? ==> IsPunct(first.c)
  {
    hide Lex, TokenText, NumberToken, NumberLength, RawLength, WordRun;
    LexStep(s);
    if s[0] == '"' {
      first, rest := StringToken(s);
    } else if IsDigit(s[0]) {
      first, rest := NumberToken(false, s), s[NumberLength(s)..];
      NumberTokenText(false, s);
    } else if s[0] == '-' {
      first, rest := NumberToken(true, s[1..]), s[1..][NumberLength(s[1..])..];
      MinusTokenText(s);
    } else if IsLetter(s[0]) {
      first, rest := Word(s[..1 + WordRun(s[1..])]), s[1..][WordRun(s[1..])..];
      WordTokenText(s, WordRun(s[1..]));
    } else {
      first, rest := Punct(s[0]), s[1..];
      PunctTokenText(s);
    }
  }

  lemma StringToken(s: string) returns (first: Token, rest: string)
    requires s != "" && s[0] == '"' && RawLength(s[1..]).Some?
    ensures var k := RawLength(s[1..]).value; first == Str(s[1..][..k]) && rest == s[1..][k + 1..]
    ensures |rest| < |s| && s == TokenText(first) + rest
  {
    hide RawLength;
    var k := RawLength(s[1..]).value;
    RawEnds(s[1..]);
    first, rest := Str(s[1..][..k]), s[1..][k + 1..];
    assert s == "\"" + s[1..][..k] + "\"" + rest;
  }

  lemma MinusTokenText(s: string)
    requires |s| > 1 && s[0] == '-' && IsDigit(s[1])
    ensures NumberToken(true, s[1..]).Num?
    ensures s == TokenText(NumberToken(true, s[1..])) + s[1..][NumberLength(s[1..])..]
  {
    hide NumberToken, NumberLength, TokenText;
    var u := s[1..];
    NumberTokenText(true, u);
    assert s == "-" + u;
    assert "-" + u[..NumberLength(u)] + u[NumberLength(u)..] == "-" + (u[..NumberLength(u)] + u[NumberLength(u)..]);
  }

  lemma WordTokenText(s: string, k: nat)
    requires s != "" && k <= |s[1..]|
    ensures s == TokenText(Word(s[..1 + k])) + s[1..][k..]
  {
  }

  lemma PunctTokenText(s: string)
    requires s != ""
    ensures s == TokenText(Punct(s[0])) + s[1..]
  {
  }

  /** The cases of the lexer. */
  lemma {:induction false} LexStep(s: string)
    requires s != "" && Lex(s).Some?
    ensures s[0] == '"' ==>
              RawLength(s[1..]).Some? &&
              var k := RawLength(s[1..]).value; Lex(s) == Cons(Str(s[1..][..k]), Lex(s[1..][k + 1..]))
    ensures IsDigit(s[0]) ==> Lex(s) == Cons(NumberToken(false, s), Lex(s[NumberLength(s)..]))
    ensures s[0] == '-' ==>
              |s| > 1 && IsDigit(s[1]) && Lex(s) == Cons(NumberToken(true, s[1..]), Lex(s[1..][NumberLength(s[1..])..]))
    ensures IsLetter(s[0]) ==> Lex(s) == Cons(Word(s[..1 + WordRun(s[1..])]), Lex(s[1..][WordRun(s[1..])..]))
    ensures s[0] != '"' && !IsDigit(s[0]) && s[0] != '-' && !IsLetter(s[0]) ==>
              IsPunct(s[0]) && Lex(s) == Cons(Punct(s[0]), Lex(s[1..]))
  {
    hide NumberToken, NumberLength, RawLength, WordRun;
  }

  lemma {:induction false} RawEnds(s: string)
    requires RawLength(s).Some?
    ensures s[RawLength(s).value] == '"'
    decreases |s|
  {
    if s[0] == '\\' {
      RawEnds(s[2..]);
    } else if s[0] != '"' {
      RawEnds(s[1..]);
    }
  }

  lemma NumberTokenText(minus: bool, s: string)
    requires s != "" && IsDigit(s[0])
    ensures NumberToken(minus, s).Num?
    ensures TokenText(NumberToken(minus, s)) == Sign(minus) + s[..NumberLength(s)]
    ensures s == s[..NumberLength(s)] + s[NumberLength(s)..]
  {
    hide DigitRun, FractionLength, ExponentLength;
    var k := DigitRun(s);
    var f, n := k + FractionLength(s[k..]), NumberLength(s);
    ThreeSlices(Sign(minus), s, k, f, n);
  }

  lemma ThreeSlices(sign: string, s: string, k: nat, f: nat, n: nat)
    requires k <= f <= n <= |s|
    ensures sign + s[..k] + s[k..f] + s[f..n] == sign + s[..n]
    ensures s == s[..n] + s[n..]
  {
    assert s[..f] == s[..k] + s[k..f];
    assert s[..n] == s[..f] + s[f..n];
    Associate(sign, s[..k], s[k..f]);
    Associate(sign, s[..f], s[f..n]);
  }

  // ----- In a value no two tokens other than punctuation meet -----

  predicate Separate(ls: seq<Lexeme>) {
    forall i :: 0 <= i < |ls| - 1 ==> ls[i].LPunct? || ls[i + 1].LPunct?
  }

  lemma SeparateConcat(a: seq<Lexeme>, b: seq<Lexeme>)
    requires Separate(a) && Separate(b)
    requires a != [] && b != [] ==> a[|a| - 1].LPunct? || b[0].LPunct?
    ensures Separate(a + b)
  {
    var c := a + b;
    forall i | 0 <= i < |c| - 1
      ensures c[i].LPunct? || c[i + 1].LPunct?
    {
      if i < |a| - 1 {
        assert c[i] == a[i] && c[i + 1] == a[i + 1];
      } else if i >= |a| {
        assert c[i] == b[i - |a|] && c[i + 1] == b[i + 1 - |a|];
      }
    }
  }

  lemma {:induction false} ValueIsSeparate(v: Json)
    ensures Separate(LexemesOf(v))
    decreases v, 0
  {
    match v
    case JArr(items) =>
      if items != [] {
        ItemsAreSeparate(items);
        SeparateConcat([LPunct('[')], ItemLexemes(items));
      }
    case JObj(members) =>
      if members != [] {
        MembersAreSeparate(members);
        SeparateConcat([LPunct('{')], MemberLexemes(members));
      }
    case _ =>
  }

  lemma {:induction false} ItemsAreSeparate(items: seq<Json>)
    requires items != []
    ensures Separate(ItemLexemes(items))
    decreases items, 1
  {
    hide LexemesOf;
    ValueIsSeparate(items[0]);
    if |items| == 1 {
      SeparateConcat(LexemesOf(items[0]), [LPunct(']')]);
    } else {
      ItemsAreSeparate(items[1..]);
      SeparateConcat([LPunct(',')], ItemLexemes(items[1..]));
      SeparateConcat(LexemesOf(items[0]), [LPunct(',')] + ItemLexemes(items[1..]));
    }
  }

  lemma {:induction false} MembersAreSeparate(members: seq<Member>)
    requires members != []
    ensures Separate(MemberLexemes(members))
    decreases members, 1
  {
    hide LexemesOf;
    assert members decreases to members[0];
    assert members[0] decreases to members[0].value;
    var head, value := [LStr(members[0].key), LPunct(':')], LexemesOf(members[0].value);
    ValueIsSeparate(members[0].value);
    SeparateConcat(head, value);
    if |members| == 1 {
      SeparateConcat(head + value, [LPunct('}')]);
    } else {
      MembersAreSeparate(members[1..]);
      SeparateConcat([LPunct(',')], MemberLexemes(members[1..]));
      SeparateConcat(head + value, [LPunct(',')] + MemberLexemes(members[1..]));
    }
  }

  // ----- So the tokens split the text -----

  /** Behind a token other than punctuation stands punctuation, which makes no number or word longer. */
  lemma PunctStops(t: Token, next: Token, more: string)
    requires next.Punct? && IsPunct(next.c)
    ensures Stops(t, TokenText(next) + more)
  {
    assert (TokenText(next) + more)[0] == next.c;
  }

  predicate PunctsOk(ts: seq<Token>) {
    forall i :: 0 <= i < |ts| && ts[i].Punct? ==> IsPunct(ts[i].c)
  }

  lemma {:induction false} LexedPuncts(s: string)
    requires Lex(s).Some?
    ensures PunctsOk(Lex(s).value)
    decreases |s|
  {
    hide TokenText;
    if s != "" {
      var first, rest := FirstToken(s);
      hide Lex;
      LexedPuncts(rest);
    }
  }

  lemma {:induction false} ShapedSplits(ts: seq<Token>)
    requires PunctsOk(ts) && Shapes(ts).Some? && Separate(Shapes(ts).value)
    ensures Splits(ts, "")
  {
    hide ShapeOf, ValidToken, TokenText, Stops, Separate, Text;
    if ts != [] {
      FirstShape(ts);
      ShapedSplits(ts[1..]);
      assert Text(ts[1..]) + "" == Text(ts[1..]);
      FirstStops(ts);
    }
  }

  /** Leaving out a first token keeps the rest in shape; the token is valid. */
  lemma FirstShape(ts: seq<Token>)
    requires ts != [] && Shapes(ts).Some? && Separate(Shapes(ts).value)
    ensures ValidToken(ts[0]) && Shapes(ts[1..]).Some? && Separate(Shapes(ts[1..]).value)
  {
    hide ShapeOf, ValidToken;
    if ts[0].Punct? && ts[0].c in " \t\n\r" {
      BlankIsValid(ts[0].c);
    } else {
      ShapeIsValid(ts[0]);
      RestIsSeparate(ShapeOf(ts[0]).value, Shapes(ts[1..]).value);
    }
  }

  lemma RestIsSeparate(l: Lexeme, rest: seq<Lexeme>)
    requires Separate([l] + rest)
    ensures Separate(rest)
    ensures rest != [] ==> l.LPunct? || rest[0].LPunct?
  {
    var ls := [l] + rest;
    forall i | 0 <= i < |rest| - 1
      ensures rest[i].LPunct? || rest[i + 1].LPunct?
    {
      assert ls[i + 1].LPunct? || ls[i + 1 + 1].LPunct?;
    }
    assert rest != [] ==> ls[0].LPunct? || ls[0 + 1].LPunct?;
  }

  /** Behind a number or a word the text goes on with punctuation. */
  lemma FirstStops(ts: seq<Token>)
    requires ts != [] && PunctsOk(ts) && Shapes(ts).Some? && Separate(Shapes(ts).value)
    ensures Stops(ts[0], Text(ts[1..]))
  {
    hide ShapeOf, ValidToken, TokenText, Stops, Separate;
    if |ts| == 1 || ts[0].Punct? {
      EndStops(ts[0], Text(ts[1..]));
    } else {
      ShapeIsValid(ts[0]);
      RestIsSeparate(ShapeOf(ts[0]).value, Shapes(ts[1..]).value);
      if !ts[1].Punct? {
        ShapeIsValid(ts[1]);
      }
      PunctStops(ts[0], ts[1], Text(ts[1..][1..]));
    }
  }

  lemma EndStops(t: Token, next: string)
    requires next == "" || t.Punct?
    ensures Stops(t, next)
  {
  }

  lemma BlankIsValid(c: char)
    requires c in " \t\n\r"
    ensures ValidToken(Punct(c))
  {
  }

  lemma ShapeIsValid(t: Token)
    requires ShapeOf(t).Some?
    ensures ValidToken(t) && (ShapeOf(t).value.LPunct? <==> t.Punct?)
  {
  }

  /**
   Every well-formed JSON text splits into tokens, and the pass copies it but for the
   integer literals outside the safe range, which it marks.
   */
  lemma PassIsExactOnJson(text: string) returns (ts: seq<Token>)
    requires WellFormed(text)
    ensures text == Text(ts) && Splits(ts, "")
    ensures Outside(text, false) == Text(MarkAll(ts))
  {
    hide Lex, Shapes, ParseValue, Outside, Splits, Text, Separate, LexemesOf;
    ts := Lex(text).value;
    var ls := Shapes(ts).value;
    var v := ParseValue(ls).value.0;
    LexedIsText(text);
    LexedPuncts(text);
    ParsedIsPrinted(ls);
    assert LexemesOf(v) + [] == LexemesOf(v);
    ValueIsSeparate(v);
    ShapedSplits(ts);
    PassIsExact(ts, "");
    NothingLeft();
    assert Text(ts) + "" == Text(ts) && Text(MarkAll(ts)) + "" == Text(MarkAll(ts));
  }

  // ----- What the parser accepts is well-formed -----

  function BlankLexeme(l: Lexeme): Lexeme {
    if l.LStr? then LStr("") else l
  }

  function BlankAll(ls: seq<Lexeme>): (r: seq<Lexeme>)
    ensures |r| == |ls| && forall i :: 0 <= i < |ls| ==> r[i] == BlankLexeme(ls[i])
  {
    seq(|ls|, i requires 0 <= i < |ls| => BlankLexeme(ls[i]))
  }

  /** The value with all strings and keys emptied. */
  function Blank(v: Json): Json
    decreases v, 0
  {
    match v
    case JStr(_) => JStr("")
    case JArr(items) => JArr(BlankItems(items))
    case JObj(members) => JObj(BlankMembers(members))
    case _ => v
  }

  function BlankItems(items: seq<Json>): (r: seq<Json>)
    ensures |r| == |items|
    decreases items, 1
  {
    if items == [] then [] else [Blank(items[0])] + BlankItems(items[1..])
  }

  function BlankMembers(members: seq<Member>): (r: seq<Member>)
    ensures |r| == |members|
    decreases members, 1
  {
    if members == [] then []
    else
      assert members decreases to members[0];
      assert members[0] decreases to members[0].value;
      [Member("", Blank(members[0].value))] + BlankMembers(members[1..])
  }

  lemma BlankConcat(a: seq<Lexeme>, b: seq<Lexeme>)
    ensures BlankAll(a + b) == BlankAll(a) + BlankAll(b)
  {
  }

  lemma {:induction false} BlankLexemes(v: Json)
    ensures LexemesOf(Blank(v)) == BlankAll(LexemesOf(v))
    decreases v, 0
  {
    match v
    case JArr(items) =>
      if items != [] {
        BlankItemLexemes(items);
        BlankConcat([LPunct('[')], ItemLexemes(items));
      }
    case JObj(members) =>
      if members != [] {
        BlankMemberLexemes(members);
        BlankConcat([LPunct('{')], MemberLexemes(members));
      }
    case _ =>
  }

  lemma {:induction false} BlankItemLexemes(items: seq<Json>)
    requires items != []
    ensures ItemLexemes(BlankItems(items)) == BlankAll(ItemLexemes(items))
    decreases items, 1
  {
    hide LexemesOf, Blank;
    BlankLexemes(items[0]);
    var first, blank := LexemesOf(items[0]), BlankItems(items);
    if |items| == 1 {
      BlankConcat(first, [LPunct(']')]);
    } else {
      BlankItemLexemes(items[1..]);
      assert blank[1..] == BlankItems(items[1..]);
      BlankConcat([LPunct(',')], ItemLexemes(items[1..]));
      BlankConcat(first, [LPunct(',')] + ItemLexemes(items[1..]));
    }
  }

  lemma {:induction false} BlankMemberLexemes(members: seq<Member>)
    requires members != []
    ensures MemberLexemes(BlankMembers(members)) == BlankAll(MemberLexemes(members))
    decreases members, 1
  {
    hide LexemesOf, Blank, BlankAll;
    assert members decreases to members[0];
    assert members[0] decreases to members[0].value;
    BlankLexemes(members[0].value);
    var head, value := [LStr(members[0].key), LPunct(':')], LexemesOf(members[0].value);
    BlankConcat(head, value);
    FixedLexemes(members[0].key);
    if |members| == 1 {
      BlankConcat(head + value, [LPunct('}')]);
    } else {
      BlankMemberLexemes(members[1..]);
      assert BlankMembers(members)[1..] == BlankMembers(members[1..]);
      BlankConcat([LPunct(',')], MemberLexemes(members[1..]));
      BlankConcat(head + value, [LPunct(',')] + MemberLexemes(members[1..]));
    }
  }

  lemma FixedLexemes(key: string)
    ensures BlankAll([LStr(key), LPunct(':')]) == [LStr(""), LPunct(':')]
    ensures BlankAll([LPunct('}')]) == [LPunct('}')] && BlankAll([LPunct(',')]) == [LPunct(',')]
  {
  }

  lemma {:induction false} DecodedIsEscaped(raw: string)
    requires Unescape(raw).Some?
    ensures ValidEscapes(raw)
    decreases |raw|
  {
    if raw != "" {
      DecodedIsEscaped(raw[UnescapeFirst(raw).value.1..]);
    }
  }

  lemma {:induction false} MeantIsShaped(ts: seq<Token>)
    requires Lexemes(ts).Some?
    ensures Shapes(ts) == Some(BlankAll(Lexemes(ts).value))
  {
    hide Unescape, ValidEscapes, ValidToken;
    if ts != [] {
      MeantIsShaped(ts[1..]);
      if !(ts[0].Punct? && ts[0].c in " \t\n\r") {
        TokenIsShaped(ts[0]);
        BlankConcat([MeaningOf(ts[0]).value], Lexemes(ts[1..]).value);
        assert BlankAll([MeaningOf(ts[0]).value]) == [BlankLexeme(MeaningOf(ts[0]).value)];
      }
    }
  }

  lemma TokenIsShaped(t: Token)
    requires MeaningOf(t).Some?
    ensures ShapeOf(t) == Some(BlankLexeme(MeaningOf(t).value))
  {
    hide Unescape, ValidEscapes, ValidToken;
    if t.Str? {
      DecodedIsEscaped(t.raw);
    }
  }

  /** The modelled parser, which decodes no escaped surrogates, accepts well-formed texts only. */
  lemma ParsedIsWellFormed(text: string)
    requires Parse(text).Some?
    ensures WellFormed(text)
  {
    hide Lex, Lexemes, Shapes, ParseValue, LexemesOf;
    var ts, v := Lex(text).value, Parse(text).value;
    MeantIsShaped(ts);
    ParsedIsPrinted(Lexemes(ts).value);
    BlankLexemes(v);
    assert LexemesOf(v) + [] == LexemesOf(v);
    PrintedIsParsed(Blank(v), []);
    assert LexemesOf(Blank(v)) + [] == LexemesOf(Blank(v));
  }
}
