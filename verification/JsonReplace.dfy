/**
 What the printer's textual replacement does: piece by piece, it is the intended one
 except where a string or a key is taken for a placeholder.
 */
module JsonReplace {
  import opened Sequences
  import opened Numerals
  import opened JsonText
  import opened JsonParse
  import opened JsonBigInt

  /**
   A piece of the printer's output after some replacements. `Broken` is a string whose end,
   an escaped quote followed by a placeholder, has been replaced: its closing quote is gone.
   */
  datatype Piece = Good(l: Lexeme) | Broken(s: string, n: nat)

  function PieceText(p: Piece): string {
    match p
    case Good(l) => TokenText(TokenOf(l))
    case Broken(s, n) => "\"" + EscapeAll(s) + "\\" + Decimal(n)
  }

  function PiecesText(ps: seq<Piece>): string {
    if ps == [] then "" else PieceText(ps[0]) + PiecesText(ps[1..])
  }

  /** One piece after the replacement of the placeholder of `n`. */
  function Settle(p: Piece, n: nat): Piece {
    match p
    case Good(LStr(s)) =>
      if s == Placeholder(n) then Good(LNum(n))
      else if EndsWith(s, "\"" + Placeholder(n)) then Broken(s[..|s| - 1 - |Placeholder(n)|], n)
      else p
    case _ => p
  }

  function SettleAll(ps: seq<Piece>, n: nat): (r: seq<Piece>)
    ensures |r| == |ps| && forall i :: 0 <= i < |ps| ==> r[i] == Settle(ps[i], n)
  {
    if ps == [] then [] else [Settle(ps[0], n)] + SettleAll(ps[1..], n)
  }

  /** JSON's punctuation, without white space. */
  predicate Plain(p: Piece) {
    p.Good? && p.l.LPunct? && p.l.c in ",:[]{}"
  }

  predicate Wellformed(p: Piece) {
    match p
    case Good(LPunct(c)) => c in ",:[]{}"
    case Good(LWord(letters)) => letters != "" && forall i :: 0 <= i < |letters| ==> IsLetter(letters[i])
    case Good(LFloat(literal)) => FloatLiteral(literal)
    case _ => true
  }

  /** Between any two pieces that are not punctuation there is punctuation. */
  predicate Separated(ps: seq<Piece>) {
    && (forall i :: 0 <= i < |ps| ==> Wellformed(ps[i]))
    && (forall i :: 0 <= i < |ps| - 1 ==> Plain(ps[i]) || Plain(ps[i + 1]))
  }

  // ----- Replacement inside one piece -----

  predicate Begins(next: string) {
    next == "" || next[0] in ",:[]{}"
  }

  lemma {:induction false} NoQuote(t: string, rest: string, from: string, to: string)
    requires from != "" && from[0] == '"' && '"' !in t
    ensures ReplaceAll(t + rest, from, to) == t + ReplaceAll(rest, from, to)
  {
    if t == "" {
      assert t + rest == rest;
    } else {
      assert (t + rest)[0] == t[0] && (t + rest)[1..] == t[1..] + rest;
      NoQuote(t[1..], rest, from, to);
    }
  }

  predicate HexText(h: string) {
    forall i :: 0 <= i < |h| ==> h[i] in "0123456789abcdefx"
  }

  lemma {:induction false} PlaceholderIsHex(n: nat)
    ensures HexText(Placeholder(n))
  {
    HexIsHex(n);
  }

  lemma {:induction false} HexIsHex(n: nat)
    ensures HexText(Hex(n))
  {
    if n >= 16 {
      HexIsHex(n / 16);
    }
  }

  lemma PrefixStep(a: string, b: string)
    requires a != "" && b != ""
    ensures a <= b <==> a[0] == b[0] && a[1..] <= b[1..]
  {
    if a[0] == b[0] && a[1..] <= b[1..] {
      assert a == [a[0]] + a[1..] && b == [b[0]] + b[1..];
    }
  }

  /** A placeholder and a quote begin an escaped string and what follows it only if the string is the placeholder. */
  lemma {:induction false} PlaceholderAhead(h: string, s: string, tail: string)
    requires HexText(h) && tail != "" && tail[0] in "\"\\"
    ensures h + "\"" <= EscapeAll(s) + tail <==> s == h && tail[0] == '"'
  {
    hide EscapeAll, Escape;
    var pattern, text := h + "\"", EscapeAll(s) + tail;
    EscapeFront(s, tail);
    PrefixStep(pattern, text);
    if h == "" {
      assert pattern[1..] == "";
    } else if s != "" && s[0] == h[0] {
      assert pattern[1..] == h[1..] + "\"";
      PlaceholderAhead(h[1..], s[1..], tail);
      assert s == [s[0]] + s[1..] && h == [h[0]] + h[1..];
    }
  }

  lemma EscapeOne(c: char)
    ensures Escape(c) != ""
    ensures if c in "0123456789abcdefx" then Escape(c) == [c] else Escape(c)[0] !in "\"0123456789abcdefx"
  {
  }

  /** How an escaped string starts: with its own first character, or else with a backslash. */
  lemma EscapeFront(s: string, tail: string)
    requires tail != ""
    ensures var text := EscapeAll(s) + tail;
            && text != ""
            && (s == "" ==> text == tail)
            && (s != "" && s[0] in "0123456789abcdefx" ==> text[0] == s[0] && text[1..] == EscapeAll(s[1..]) + tail)
            && (s != "" && s[0] !in "0123456789abcdefx" ==> text[0] !in "\"0123456789abcdefx")
  {
    hide Escape;
    if s != "" {
      EscapeOne(s[0]);
      var rest := EscapeAll(s[1..]) + tail;
      assert EscapeAll(s) + tail == Escape(s[0]) + rest;
      assert Escape(s[0]) == [s[0]] ==> ([s[0]] + rest)[1..] == rest;
    }
  }

  // ----- Replacement inside a string -----

  /** What follows an escaped string in a piece: its closing quote, or the end of a broken one. */
  lemma {:induction false} ReplaceInString(s: string, tail: string, n: nat)
    requires tail != "" && tail[0] in "\"\\"
    requires !(Quoted(n) <= tail)
    ensures var from, to, q := Quoted(n), Decimal(n), "\"" + Placeholder(n);
            ReplaceAll(EscapeAll(s) + tail, from, to) ==
            if EndsWith(s, q) && tail[0] == '"' then
              EscapeAll(s[..|s| - |q|]) + "\\" + to + ReplaceAll(tail[1..], from, to)
            else EscapeAll(s) + ReplaceAll(tail, from, to)
  {
    hide Escape, EscapeAll, Decimal, Placeholder, ReplaceAll, EndsWith, Quoted;
    var from, to, q := Quoted(n), Decimal(n), "\"" + Placeholder(n);
    EmptyString(tail, q);
    if s != "" {
      var rest := EscapeAll(s[1..]) + tail;
      EscapeAllStep(s);
      Associate(Escape(s[0]), EscapeAll(s[1..]), tail);
      ReplaceInString(s[1..], tail, n);
      EndsWithTail(s, q);
      if EndsWith(s[1..], q) {
        var s0 := s[1..][..|s| - 1 - |q|];
        EscapeAllStep([s[0]] + s0);
        Associate(Escape(s[0]), EscapeAll(s0), "\\" + to + ReplaceAll(tail[1..], from, to));
      }
      Associate(Escape(s[0]), EscapeAll(s[1..]), ReplaceAll(tail, from, to));
      if s[0] != '"' {
        EscapeHasNoQuote(s[0]);
        NoQuote(Escape(s[0]), rest, from, to);
        assert s != q;
      } else {
        QuoteStep(s[1..], tail, n);
        EscapedQuote();
        assert s == [s[0]] + s[1..];
      }
    }
  }

  lemma EmptyString(tail: string, q: string)
    requires q != ""
    ensures EscapeAll("") + tail == tail && EscapeAll("") == "" && !EndsWith("", q)
  {
  }

  lemma EscapedQuote()
    ensures Escape('"') == "\\\""
  {
  }

  lemma EscapeHasNoQuote(c: char)
    requires c != '"'
    ensures '"' !in Escape(c)
  {
  }

  lemma {:induction false} HexEscapesToItself(h: string)
    requires HexText(h)
    ensures EscapeAll(h) == h
  {
    hide Escape;
    if h != "" {
      EscapeOne(h[0]);
      HexEscapesToItself(h[1..]);
      assert h == [h[0]] + h[1..];
    }
  }

  /** An escaped quote inside a string: the backslash is copied, and the quote may start a placeholder. */
  lemma QuoteStep(s: string, tail: string, n: nat)
    requires tail != "" && tail[0] in "\"\\"
    ensures var from, to := Quoted(n), Decimal(n);
            ReplaceAll("\\\"" + (EscapeAll(s) + tail), from, to) ==
            if s == Placeholder(n) && tail[0] == '"' then "\\" + to + ReplaceAll(tail[1..], from, to)
            else "\\\"" + ReplaceAll(EscapeAll(s) + tail, from, to)
  {
    hide EscapeAll, Escape, Decimal, Placeholder, ReplaceAll;
    var rest := EscapeAll(s) + tail;
    assert "\\\"" + rest == ['\\'] + ("\"" + rest);
    ReplaceMiss('\\', "\"" + rest, Quoted(n), Decimal(n));
    OpeningQuote(s, tail, n);
  }

  /** A quote before an escaped string starts the placeholder only if the whole string is one. */
  lemma OpeningQuote(s: string, tail: string, n: nat)
    requires tail != "" && tail[0] in "\"\\"
    ensures var from, to := Quoted(n), Decimal(n);
            ReplaceAll("\"" + (EscapeAll(s) + tail), from, to) ==
            if s == Placeholder(n) && tail[0] == '"' then to + ReplaceAll(tail[1..], from, to)
            else "\"" + ReplaceAll(EscapeAll(s) + tail, from, to)
  {
    hide EscapeAll, Escape, Decimal, Placeholder, ReplaceAll;
    var from, to, rest := Quoted(n), Decimal(n), EscapeAll(s) + tail;
    PlaceholderIsHex(n);
    PlaceholderAhead(Placeholder(n), s, tail);
    QuotePrefix(Placeholder(n) + "\"", rest);
    assert from == "\"" + (Placeholder(n) + "\"");
    if s == Placeholder(n) && tail[0] == '"' {
      HexEscapesToItself(s);
      QuotedAhead(s, tail);
      ReplaceHit(tail[1..], from, to);
    } else {
      ReplaceMiss('"', rest, from, to);
    }
  }

  lemma ReplaceMiss(c: char, rest: string, from: string, to: string)
    requires from != "" && (c != from[0] || !(from <= [c] + rest))
    ensures ReplaceAll([c] + rest, from, to) == [c] + ReplaceAll(rest, from, to)
  {
    assert ([c] + rest)[1..] == rest;
  }

  lemma ReplaceHit(rest: string, from: string, to: string)
    requires from != ""
    ensures ReplaceAll(from + rest, from, to) == to + ReplaceAll(rest, from, to)
  {
    assert (from + rest)[|from|..] == rest;
  }

  lemma QuotedAhead(p: string, tail: string)
    requires tail != "" && tail[0] == '"'
    ensures "\"" + (p + tail) == "\"" + p + "\"" + tail[1..]
  {
    assert tail == "\"" + tail[1..];
  }

  lemma QuotePrefix(a: string, b: string)
    ensures "\"" + a <= "\"" + b <==> a <= b
  {
    PrefixStep("\"" + a, "\"" + b);
    assert ("\"" + a)[1..] == a && ("\"" + b)[1..] == b;
  }

  lemma EscapeAllStep(s: string)
    requires s != ""
    ensures EscapeAll(s) == Escape(s[0]) + EscapeAll(s[1..])
    ensures forall t :: s == [s[0]] + t ==> s[1..] == t
  {
  }

  lemma EndsWithTail(s: string, q: string)
    requires s != ""
    ensures EndsWith(s, q) <==> s == q || EndsWith(s[1..], q)
    ensures EndsWith(s[1..], q) ==> |q| < |s| && s[..|s| - |q|] == [s[0]] + s[1..][..|s| - 1 - |q|]
  {
    if |q| < |s| {
      assert s[|s| - |q|..] == s[1..][|s| - 1 - |q|..];
    }
  }

  // ----- Replacement over the whole output -----

  lemma NumberText(n: int)
    ensures TokenText(TokenOf(LNum(n))) == Sign(n < 0) + Decimal(if n < 0 then -n else n)
    ensures '"' !in TokenText(TokenOf(LNum(n)))
  {
    DecimalHasNoQuote(if n < 0 then -n else n);
  }

  lemma FloatText(literal: string)
    requires FloatLiteral(literal)
    ensures TokenText(TokenOf(LFloat(literal))) == literal && '"' !in literal
  {
    hide LiteralToken, ValidToken, TokenText, Unescape;
    NumHasNoQuote(LiteralToken(literal));
  }

  lemma NumHasNoQuote(t: Token)
    requires t.Num? && ValidToken(t)
    ensures '"' !in TokenText(t)
  {
    DigitsHaveNoQuote(t.digits);
    if t.fraction != "" {
      DigitsHaveNoQuote(t.fraction[1..]);
      assert t.fraction == [t.fraction[0]] + t.fraction[1..];
    }
    if t.exponent != "" {
      var k := if AllDigits(t.exponent[1..]) then 1 else 2;
      DigitsHaveNoQuote(t.exponent[k..]);
      assert t.exponent == t.exponent[..k] + t.exponent[k..];
    }
  }

  lemma DigitsHaveNoQuote(s: string)
    requires AllDigits(s)
    ensures '"' !in s
  {
    assert forall i :: 0 <= i < |s| ==> IsDigit(s[i]);
  }

  lemma DecimalHasNoQuote(n: nat)
    ensures '"' !in Decimal(n) && '"' !in "\\" + Decimal(n)
  {
    DigitsHaveNoQuote(Decimal(n));
  }

  lemma NotQuotedAfter(rest: string, n: nat)
    requires Begins(rest)
    ensures !(Quoted(n) <= "\"" + rest)
  {
    assert Quoted(n)[1] == '0';
    assert rest != "" ==> ("\"" + rest)[1] == rest[0];
  }

  lemma StringReplaced(s: string, rest: string, n: nat)
    requires Begins(rest)
    ensures ReplaceAll(PieceText(Good(LStr(s))) + rest, Quoted(n), Decimal(n)) ==
            PieceText(Settle(Good(LStr(s)), n)) + ReplaceAll(rest, Quoted(n), Decimal(n))
  {
    hide EscapeAll, Escape, Decimal, Placeholder, ReplaceAll, EndsWith, Quoted, Settle, PieceText;
    var from, to, tail := Quoted(n), Decimal(n), "\"" + rest;
    assert tail[1..] == rest;
    StringText(s, rest);
    OpeningQuote(s, tail, n);
    if s == Placeholder(n) {
      WholeSettled(n);
    } else {
      StringContentReplaced(s, rest, n);
    }
  }

  lemma StringContentReplaced(s: string, rest: string, n: nat)
    requires Begins(rest) && s != Placeholder(n)
    ensures "\"" + ReplaceAll(EscapeAll(s) + ("\"" + rest), Quoted(n), Decimal(n)) ==
            PieceText(Settle(Good(LStr(s)), n)) + ReplaceAll(rest, Quoted(n), Decimal(n))
  {
    hide EscapeAll, Escape, Decimal, Placeholder, ReplaceAll, EndsWith, Quoted;
    var tail, q, rest' := "\"" + rest, "\"" + Placeholder(n), ReplaceAll(rest, Quoted(n), Decimal(n));
    assert tail[1..] == rest;
    NotQuotedAfter(rest, n);
    ReplaceInString(s, tail, n);
    if EndsWith(s, q) {
      StillFits(s, q);
      BrokenText(s[..|s| - |q|], n, rest');
    } else {
      ReplaceMissAfter(rest, n);
      StringText(s, rest');
    }
  }

  lemma WholeSettled(n: nat)
    ensures PieceText(Settle(Good(LStr(Placeholder(n))), n)) == Decimal(n)
  {
    NumberText(n);
  }

  lemma BrokenText(s: string, n: nat, rest: string)
    ensures "\"" + (EscapeAll(s) + "\\" + Decimal(n) + rest) == PieceText(Broken(s, n)) + rest
  {
    hide EscapeAll, Decimal;
    Associate("\"", EscapeAll(s), "\\");
    Associate("\"", EscapeAll(s) + "\\", Decimal(n));
    Associate("\"", EscapeAll(s) + "\\" + Decimal(n), rest);
  }

  lemma StringText(s: string, rest: string)
    ensures "\"" + (EscapeAll(s) + ("\"" + rest)) == PieceText(Good(LStr(s))) + rest
  {
  }

  lemma StillFits(s: string, q: string)
    requires EndsWith(s, q)
    ensures |q| <= |s|
  {
  }

  lemma ReplaceMissAfter(rest: string, n: nat)
    requires Begins(rest)
    ensures ReplaceAll("\"" + rest, Quoted(n), Decimal(n)) == "\"" + ReplaceAll(rest, Quoted(n), Decimal(n))
  {
    NotQuotedAfter(rest, n);
    ReplaceMiss('"', rest, Quoted(n), Decimal(n));
  }

  lemma BrokenKept(s: string, m: nat, rest: string, n: nat)
    ensures ReplaceAll(PieceText(Broken(s, m)) + rest, Quoted(n), Decimal(n)) ==
            PieceText(Broken(s, m)) + ReplaceAll(rest, Quoted(n), Decimal(n))
  {
    hide EscapeAll, Escape, Decimal, Placeholder, ReplaceAll, EndsWith;
    var from, to, t := Quoted(n), Decimal(n), "\\" + Decimal(m);
    var tail := t + rest;
    assert PieceText(Broken(s, m)) + rest == "\"" + (EscapeAll(s) + tail);
    OpeningQuote(s, tail, n);
    assert !(from <= tail) by {
      assert tail[0] != from[0];
    }
    ReplaceInString(s, tail, n);
    DecimalHasNoQuote(m);
    NoQuote(t, rest, from, to);
    Associate(EscapeAll(s), t, ReplaceAll(rest, from, to));
    Associate("\"", EscapeAll(s) + t, ReplaceAll(rest, from, to));
    Associate("\"", EscapeAll(s), t);
    Associate("\"" + EscapeAll(s), "\\", Decimal(m));
  }

  lemma PieceReplaced(p: Piece, rest: string, n: nat)
    requires Wellformed(p) && (Plain(p) || Begins(rest))
    ensures ReplaceAll(PieceText(p) + rest, Quoted(n), Decimal(n)) ==
            PieceText(Settle(p, n)) + ReplaceAll(rest, Quoted(n), Decimal(n))
  {
    hide ReplaceAll, Quoted, EndsWith;
    match p
    case Broken(s, m) => BrokenKept(s, m, rest, n);
    case Good(LStr(s)) => StringReplaced(s, rest, n);
    case Good(LNum(m)) =>
      NumberText(m);
      NoQuote(PieceText(p), rest, Quoted(n), Decimal(n));
    case Good(LFloat(literal)) =>
      FloatText(literal);
      NoQuote(literal, rest, Quoted(n), Decimal(n));
    case Good(LWord(letters)) =>
      NoQuote(letters, rest, Quoted(n), Decimal(n));
    case Good(LPunct(c)) =>
      ReplaceMiss(c, rest, Quoted(n), Decimal(n));
  }

  lemma {:induction false} PiecesBegin(ps: seq<Piece>)
    requires ps != [] ==> Plain(ps[0])
    ensures Begins(PiecesText(ps))
  {
  }

  /** One textual replacement settles every piece on its own. */
  lemma {:induction false} PiecesReplaced(ps: seq<Piece>, n: nat)
    requires Separated(ps)
    ensures ReplaceAll(PiecesText(ps), Quoted(n), Decimal(n)) == PiecesText(SettleAll(ps, n))
    ensures Separated(SettleAll(ps, n))
  {
    hide PieceText, Quoted, Settle, ReplaceAll;
    if ps == [] {
      NothingReplaced(n);
    } else {
      if !Plain(ps[0]) {
        PiecesBegin(ps[1..]);
      }
      PieceReplaced(ps[0], PiecesText(ps[1..]), n);
      PiecesReplaced(ps[1..], n);
      assert SettleAll(ps, n)[1..] == SettleAll(ps[1..], n);
    }
    StillSeparated(ps, n);
  }

  lemma NothingReplaced(n: nat)
    ensures ReplaceAll("", Quoted(n), Decimal(n)) == ""
  {
  }

  lemma StillSeparated(ps: seq<Piece>, n: nat)
    requires Separated(ps)
    ensures Separated(SettleAll(ps, n))
  {
    hide Placeholder, EndsWith;
    var r := SettleAll(ps, n);
    forall i | 0 <= i < |ps|
      ensures Wellformed(r[i]) && (Plain(ps[i]) ==> Plain(r[i]))
    {
      assert r[i] == Settle(ps[i], n);
    }
  }
}
