/**
 A printed front of a text on its way through the pass, the lexer and the meanings of the
 tokens: every step takes it lexeme by lexeme, whatever stands behind it.
 */
module JsonRoundTrip {
  import opened Wrappers
  import opened Sequences
  import opened Numerals
  import opened JsonText
  import opened JsonParse
  import opened JsonBigInt
  import opened JsonReplace
  import opened JsonLaws

  // ----- Tokens are found again in their text -----

  function Prepend<T>(xs: seq<T>, ys: Option<seq<T>>): Option<seq<T>> {
    if ys.None? then None else Some(xs + ys.value)
  }

  lemma {:induction false} RawLengthOf(raw: string, next: string)
    requires ValidRaw(raw)
    ensures RawLength(raw + "\"" + next) == Some(|raw|)
    decreases |raw|
  {
    var s := raw + "\"" + next;
    if raw != "" {
      if raw[0] == '\\' {
        assert s[2..] == raw[2..] + "\"" + next;
        RawLengthOf(raw[2..], next);
      } else {
        assert s[1..] == raw[1..] + "\"" + next;
        RawLengthOf(raw[1..], next);
      }
    }
  }

  lemma {:induction false} WordRunOf(letters: string, next: string)
    requires forall i :: 0 <= i < |letters| ==> IsLetter(letters[i])
    requires next == "" || !IsLetter(next[0])
    ensures WordRun(letters + next) == |letters|
  {
    if letters == "" {
      assert letters + next == next;
    } else {
      assert (letters + next)[1..] == letters[1..] + next;
      WordRunOf(letters[1..], next);
    }
  }

  lemma LexString(raw: string, next: string)
    requires ValidRaw(raw)
    ensures Lex("\"" + raw + "\"" + next) == Cons(Str(raw), Lex(next))
  {
    hide RawLength, NumberToken, NumberLength;
    var s := "\"" + raw + "\"" + next;
    assert s[1..] == raw + "\"" + next;
    RawLengthOf(raw, next);
    assert s[1..][..|raw|] == raw && s[1..][|raw| + 1..] == next;
  }

  lemma NumberTokenOf(t: Token, next: string)
    requires t.Num? && ValidToken(t) && Stops(t, next)
    ensures var s := t.digits + t.fraction + t.exponent + next;
            && IsDigit(s[0]) && NumberToken(t.minus, s) == t && s[NumberLength(s)..] == next
  {
    hide NumberLength, DigitRun, FractionLength, ValidToken, Stops;
    NumberParts(t, next);
    Slices(t.digits, t.fraction, t.exponent, next);
  }

  lemma Slices(a: string, b: string, c: string, d: string)
    ensures var s := a + b + c + d;
            && s[..|a|] == a && s[|a|..|a| + |b|] == b && s[|a| + |b|..|a| + |b| + |c|] == c
            && s[|a| + |b| + |c|..] == d
  {
  }

  lemma LexNumber(t: Token, next: string)
    requires t.Num? && ValidToken(t) && Stops(t, next)
    ensures Lex(TokenText(t) + next) == Cons(t, Lex(next))
  {
    hide RawLength, NumberToken, NumberLength, ValidToken, Stops;
    NumberTokenOf(t, next);
    var s := t.digits + t.fraction + t.exponent + next;
    if t.minus {
      assert TokenText(t) + next == "-" + s;
      assert ("-" + s)[1..] == s && ("-" + s)[1] == s[0];
    } else {
      assert TokenText(t) + next == s;
    }
  }

  lemma {:induction false} LexWord(letters: string, next: string)
    requires letters != "" && forall i :: 0 <= i < |letters| ==> IsLetter(letters[i])
    requires next == "" || !IsLetter(next[0])
    ensures Lex(letters + next) == Cons(Word(letters), Lex(next))
  {
    hide RawLength, NumberToken, NumberLength;
    var s := letters + next;
    assert s[0] == letters[0] && s[1..] == letters[1..] + next;
    WordRunOf(letters[1..], next);
    assert s[..|letters|] == letters && s[1..][|letters| - 1..] == next;
  }

  lemma LexPunct(c: char, next: string)
    requires IsPunct(c)
    ensures Lex([c] + next) == Cons(Punct(c), Lex(next))
  {
    hide RawLength, NumberToken, NumberLength, WordRun;
    assert ([c] + next)[1..] == next;
  }

  lemma LexToken(t: Token, next: string)
    requires ValidToken(t) && Stops(t, next)
    ensures Lex(TokenText(t) + next) == Cons(t, Lex(next))
  {
    hide Lex;
    match t
    case Str(raw) => LexString(raw, next);
    case Num(_, _, _, _) => LexNumber(t, next);
    case Word(letters) => LexWord(letters, next);
    case Punct(c) => LexPunct(c, next);
  }

  lemma {:induction false} LexIsExact(ts: seq<Token>, after: string)
    requires Splits(ts, after)
    ensures Lex(Text(ts) + after) == Prepend(ts, Lex(after))
  {
    hide Lex, TokenText, ValidToken, Stops;
    if ts == [] {
      assert Text(ts) + after == after;
      assert Lex(after).Some? ==> ts + Lex(after).value == Lex(after).value;
    } else {
      assert Text(ts) + after == TokenText(ts[0]) + (Text(ts[1..]) + after);
      LexToken(ts[0], Text(ts[1..]) + after);
      LexIsExact(ts[1..], after);
      assert Lex(after).Some? ==> [ts[0]] + (ts[1..] + Lex(after).value) == ts + Lex(after).value;
    }
  }

  // ----- The printed tokens -----

  lemma {:induction false} EscapedIsValid(s: string)
    ensures ValidRaw(EscapeAll(s))
  {
    hide Escape;
    if s != "" {
      EscapedIsValid(s[1..]);
      EscapedCharIsValid(s[0], EscapeAll(s[1..]));
    }
  }

  lemma EscapedCharIsValid(c: char, next: string)
    requires ValidRaw(next)
    ensures ValidRaw(Escape(c) + next)
  {
    var e := Escape(c);
    if e[0] != '\\' {
      assert (e + next)[1..] == next;
    } else {
      assert (e + next)[2..] == e[2..] + next;
      assert '"' !in e[2..] && '\\' !in e[2..];
      PlainIsValid(e[2..], next);
    }
  }

  lemma {:induction false} PlainIsValid(t: string, next: string)
    requires '"' !in t && '\\' !in t && ValidRaw(next)
    ensures ValidRaw(t + next)
  {
    if t == "" {
      assert t + next == next;
    } else {
      assert (t + next)[1..] == t[1..] + next;
      PlainIsValid(t[1..], next);
    }
  }

  lemma TokenIsValid(l: Lexeme)
    requires Wellformed(Good(l))
    ensures ValidToken(TokenOf(l))
  {
    hide EscapeAll, Decimal;
    if l.LStr? {
      EscapedIsValid(l.s);
    }
  }

  lemma {:induction false} PrintedSplits(ls: seq<Lexeme>, after: string)
    requires Apart(ls)
    requires ls == [] || Punctuation(ls[|ls| - 1]) || Begins(after)
    ensures Splits(Tokens(ls), after)
  {
    hide TokenOf, TokenText, ValidToken, Stops, Apart, Wellformed;
    ApartIff(ls);
    if ls != [] {
      ApartIff(ls[1..]);
      PrintedSplits(ls[1..], after);
      TokenIsValid(ls[0]);
      assert Tokens(ls)[1..] == Tokens(ls[1..]);
      PrintedStops(ls, after);
    }
  }

  lemma PrintedStops(ls: seq<Lexeme>, after: string)
    requires ls != [] && (Punctuation(ls[|ls| - 1]) || Begins(after))
    requires |ls| > 1 ==> Punctuation(ls[0]) || Punctuation(ls[1])
    ensures Stops(TokenOf(ls[0]), Text(Tokens(ls[1..])) + after)
  {
    hide EscapeAll, Decimal;
    var rest := Tokens(ls[1..]);
    var next := Text(rest) + after;
    if !Punctuation(ls[0]) {
      if |ls| > 1 {
        assert rest[0] == TokenOf(ls[1]) == Punct(ls[1].c);
        assert Text(rest) == [ls[1].c] + Text(rest[1..]);
        assert next[0] == ls[1].c;
      } else {
        assert rest == [];
        assert next == after;
      }
      assert Begins(next);
    }
  }

  // ----- What the preprocessing pass makes of the printed tokens -----

  function Marked(l: Lexeme): Lexeme {
    if l.LNum? && !Safe(l.n) then LStr(BIGINT_MARKER + Sign(l.n < 0) + Decimal(if l.n < 0 then -l.n else l.n)) else l
  }

  function MarkedAll(ls: seq<Lexeme>): (r: seq<Lexeme>)
    ensures |r| == |ls| && forall i :: 0 <= i < |ls| ==> r[i] == Marked(ls[i])
  {
    if ls == [] then [] else [Marked(ls[0])] + MarkedAll(ls[1..])
  }

  predicate SelfEscaped(t: string) {
    forall i :: 0 <= i < |t| ==> IsDigit(t[i]) || t[i] in "_BIGNT-"
  }

  lemma {:induction false} EscapesToItself(t: string)
    requires SelfEscaped(t)
    ensures EscapeAll(t) == t
  {
    hide Escape;
    if t != "" {
      PlainEscape(t[0]);
      EscapesToItself(t[1..]);
      assert t == [t[0]] + t[1..];
    }
  }

  lemma PlainEscape(c: char)
    requires IsDigit(c) || c in "_BIGNT-"
    ensures Escape(c) == [c]
  {
  }

  lemma MarkedToken(l: Lexeme)
    requires Wellformed(Good(l))
    ensures Mark(TokenOf(l)) == TokenOf(Marked(l)) && Wellformed(Good(Marked(l)))
  {
    hide EscapeAll, Decimal;
    if l.LNum? {
      var digits := Decimal(if l.n < 0 then -l.n else l.n);
      DecimalReadsBack(if l.n < 0 then -l.n else l.n);
      EscapesToItself(BIGINT_MARKER + Sign(l.n < 0) + digits);
    }
  }

  lemma {:induction false} MarkedTokens(ls: seq<Lexeme>)
    requires forall l :: l in ls ==> Wellformed(Good(l))
    ensures MarkAll(Tokens(ls)) == Tokens(MarkedAll(ls))
  {
    hide Mark, TokenOf, Marked;
    if ls != [] {
      MarkedToken(ls[0]);
      MarkedTokens(ls[1..]);
      assert Tokens(ls)[1..] == Tokens(ls[1..]);
      assert MarkedAll(ls)[1..] == MarkedAll(ls[1..]);
    }
  }

  lemma MarkedApart(ls: seq<Lexeme>)
    requires Apart(ls)
    ensures Apart(MarkedAll(ls))
    ensures forall l :: l in ls ==> Wellformed(Good(l))
  {
    hide Mark, TokenOf, Apart, Wellformed;
    ApartIff(ls);
    ApartIff(MarkedAll(ls));
    forall i | 0 <= i < |ls|
      ensures Wellformed(Good(MarkedAll(ls)[i])) && (Punctuation(ls[i]) ==> Punctuation(MarkedAll(ls)[i]))
    {
      assert ls[i] in ls;
      MarkedToken(ls[i]);
    }
  }

  lemma BeginsAfterPass(after: string)
    requires Begins(after)
    ensures Begins(Outside(after, false))
  {
    hide NumberLength, NumberOutput, Inside;
  }

  /** A printed front of a text goes through the pass and the lexer on its own. */
  lemma FrontPasses(ls: seq<Lexeme>, after: string)
    requires Apart(ls)
    requires ls == [] || Punctuation(ls[|ls| - 1]) || Begins(after)
    ensures Lex(Outside(Text(Tokens(ls)) + after, false)) ==
            Prepend(Tokens(MarkedAll(ls)), Lex(Outside(after, false)))
  {
    hide Lex, Outside, TokenOf, Mark, Apart, Wellformed, Text;
    PrintedSplits(ls, after);
    PassIsExact(Tokens(ls), after);
    MarkedApart(ls);
    MarkedTokens(ls);
    if Begins(after) {
      BeginsAfterPass(after);
    }
    var ms := MarkedAll(ls);
    assert ls != [] && Punctuation(ls[|ls| - 1]) ==> Punctuation(ms[|ms| - 1]);
    PrintedSplits(ms, Outside(after, false));
    LexIsExact(Tokens(ms), Outside(after, false));
  }

  // ----- What the tokens mean -----

  lemma UnescapeControl(c: char, rest: string)
    requires |Escape(c)| == 6
    ensures UnescapeFirst(Escape(c) + rest) == Some((c, 6))
  {
    ControlEscape(c);
    hide Escape, HexDigit, HexValue, UnescapeFirst;
    HexDigitReadsBack(c as int / 16);
    HexDigitReadsBack(c as int % 16);
    UnescapeCode(HexDigit(c as int / 16), HexDigit(c as int % 16), rest);
  }

  lemma ControlEscape(c: char)
    requires |Escape(c)| == 6
    ensures c < ' ' && Escape(c) == "\\u00" + [HexDigit(c as int / 16), HexDigit(c as int % 16)]
  {
    hide HexDigit;
  }

  lemma UnescapeCode(high: char, low: char, rest: string)
    requires 0 <= HexValue(high) < 16 && 0 <= HexValue(low) < 16
    ensures UnescapeFirst("\\u00" + [high, low] + rest) == Some(((HexValue(high) * 16 + HexValue(low)) as char, 6))
  {
    var raw := "\\u00" + [high, low] + rest;
    assert raw[0] == '\\' && raw[1] == 'u' && raw[2] == '0' && raw[3] == '0' && raw[4] == high && raw[5] == low;
    assert HexValue('0') == 0;
  }

  lemma UnescapeChar(c: char, rest: string)
    ensures UnescapeFirst(Escape(c) + rest) == Some((c, |Escape(c)|))
  {
    var e := Escape(c);
    if |e| == 6 {
      UnescapeControl(c, rest);
    } else {
      hide HexValue, HexDigit;
      assert (e + rest)[0] == e[0];
      assert |e| == 2 ==> (e + rest)[1] == e[1];
    }
  }

  lemma {:induction false} UnescapeEscaped(s: string, rest: string)
    ensures Unescape(EscapeAll(s) + rest) == Prepend(s, Unescape(rest))
  {
    hide Escape, EscapeAll, Unescape;
    if s == "" {
      EmptyString(rest, "x");
      assert Unescape(rest).Some? ==> s + Unescape(rest).value == Unescape(rest).value;
    } else {
      UnescapeEscaped(s[1..], rest);
      UnescapeStep(s[0], EscapeAll(s[1..]) + rest);
      EscapeAllStep(s);
      Associate(Escape(s[0]), EscapeAll(s[1..]), rest);
      assert Unescape(rest).Some? ==> [s[0]] + (s[1..] + Unescape(rest).value) == s + Unescape(rest).value;
    }
  }

  lemma UnescapeStep(c: char, next: string)
    ensures Unescape(Escape(c) + next) == Cons(c, Unescape(next))
  {
    hide Escape, UnescapeFirst;
    UnescapeChar(c, next);
    assert (Escape(c) + next)[|Escape(c)|..] == next;
  }

  lemma MeaningOfPrinted(l: Lexeme)
    requires Wellformed(Good(l)) && (l.LNum? ==> Safe(l.n))
    ensures MeaningOf(TokenOf(l)) == Some(l)
  {
    hide EscapeAll, Decimal, Unescape, ValidToken;
    TokenIsValid(l);
    if l.LStr? {
      UnescapeEscaped(l.s, "");
      NothingUnescaped();
      assert EscapeAll(l.s) + "" == EscapeAll(l.s) && l.s + "" == l.s;
    } else if l.LNum? {
      DecimalReadsBack(if l.n < 0 then -l.n else l.n);
    }
  }

  lemma NothingUnescaped()
    ensures Unescape("") == Some("")
  {
  }

  lemma NotBlank(l: Lexeme)
    requires Wellformed(Good(l))
    ensures !(TokenOf(l).Punct? && TokenOf(l).c in " \t\n\r")
  {
  }

  lemma {:induction false} LexemesOfFront(ls: seq<Lexeme>, rest: seq<Token>)
    requires forall l :: l in ls ==> Wellformed(Good(l)) && (l.LNum? ==> Safe(l.n))
    ensures Lexemes(Tokens(ls) + rest) == Prepend(ls, Lexemes(rest))
  {
    hide MeaningOf, TokenOf, Wellformed;
    if ls == [] {
      assert Tokens(ls) + rest == rest;
      assert Lexemes(rest).Some? ==> ls + Lexemes(rest).value == Lexemes(rest).value;
    } else {
      assert Tokens(ls) + rest == [TokenOf(ls[0])] + (Tokens(ls[1..]) + rest);
      MeaningOfPrinted(ls[0]);
      NotBlank(ls[0]);
      LexemesOfFront(ls[1..], rest);
      assert Lexemes(rest).Some? ==> [ls[0]] + (ls[1..] + Lexemes(rest).value) == ls + Lexemes(rest).value;
    }
  }

  lemma MarkedMeans(ls: seq<Lexeme>, rest: seq<Token>)
    requires Apart(ls)
    ensures Lexemes(Tokens(MarkedAll(ls)) + rest) == Prepend(MarkedAll(ls), Lexemes(rest))
  {
    hide TokenOf, Apart, Wellformed;
    MarkedApart(ls);
    ApartIff(MarkedAll(ls));
    LexemesOfFront(MarkedAll(ls), rest);
  }
}
