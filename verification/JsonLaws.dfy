/**
 The printer's output as a whole: its pieces are the lexemes of the value, except where a
 string or a key is taken for a placeholder.
 */
module JsonLaws {
  import opened Numerals
  import opened JsonText
  import opened JsonParse
  import opened JsonBigInt
  import opened JsonReplace

  // ----- The printed lexemes are separated by punctuation -----

  function GoodAll(ls: seq<Lexeme>): (ps: seq<Piece>)
    ensures |ps| == |ls| && forall i :: 0 <= i < |ls| ==> ps[i] == Good(ls[i])
  {
    if ls == [] then [] else [Good(ls[0])] + GoodAll(ls[1..])
  }

  predicate Apart(ls: seq<Lexeme>) {
    Separated(GoodAll(ls))
  }

  predicate Punctuation(l: Lexeme) {
    l.LPunct? && l.c in ",:[]{}"
  }

  lemma ApartIff(ls: seq<Lexeme>)
    ensures Apart(ls) <==>
            && (forall i :: 0 <= i < |ls| ==> Wellformed(Good(ls[i])))
            && (forall i :: 0 <= i < |ls| - 1 ==> Punctuation(ls[i]) || Punctuation(ls[i + 1]))
  {
    var ps := GoodAll(ls);
    assert forall i :: 0 <= i < |ls| ==> ps[i] == Good(ls[i]) && (Plain(ps[i]) <==> Punctuation(ls[i]));
  }

  lemma ApartConcat(a: seq<Lexeme>, b: seq<Lexeme>)
    requires Apart(a) && Apart(b)
    requires a == [] || b == [] || Punctuation(a[|a| - 1]) || Punctuation(b[0])
    ensures Apart(a + b)
  {
    hide Apart, Wellformed;
    ApartIff(a);
    ApartIff(b);
    ApartIff(a + b);
    var c := a + b;
    forall i | 0 <= i < |c| - 1
      ensures Punctuation(c[i]) || Punctuation(c[i + 1])
    {
      if i >= |a| {
        assert c[i] == b[i - |a|] && c[i + 1] == b[i + 1 - |a|];
      } else if i + 1 < |a| {
        assert c[i] == a[i] && c[i + 1] == a[i + 1];
      }
    }
  }

  lemma OneApart(l: Lexeme)
    requires Wellformed(Good(l))
    ensures Apart([l])
  {
    ApartIff([l]);
  }

  lemma TwoApart(l: Lexeme, m: Lexeme)
    requires Wellformed(Good(l)) && Wellformed(Good(m)) && Punctuation(m)
    ensures Apart([l, m])
  {
    ApartIff([l, m]);
  }

  lemma {:induction false} ValueApart(v: Json)
    requires Printable(v)
    ensures Apart(LexemesOf(v))
    decreases v, 0
  {
    hide Apart;
    if v.JArr? {
      OneApart(LPunct('['));
      if v.items == [] {
        TwoApart(LPunct('['), LPunct(']'));
      } else {
        ItemsApart(v.items);
        ApartConcat([LPunct('[')], ItemLexemes(v.items));
      }
    } else if v.JObj? {
      OneApart(LPunct('{'));
      if v.members == [] {
        TwoApart(LPunct('{'), LPunct('}'));
      } else {
        MembersApart(v.members);
        ApartConcat([LPunct('{')], MemberLexemes(v.members));
      }
    } else {
      OneApart(LexemesOf(v)[0]);
    }
  }

  lemma {:induction false} ItemsApart(items: seq<Json>)
    requires items != [] && forall i :: 0 <= i < |items| ==> Printable(items[i])
    ensures Apart(ItemLexemes(items))
    decreases items, 1
  {
    hide Apart, LexemesOf, Printable;
    ValueApart(items[0]);
    if |items| == 1 {
      OneApart(LPunct(']'));
      ApartConcat(LexemesOf(items[0]), [LPunct(']')]);
    } else {
      OneApart(LPunct(','));
      ItemsApart(items[1..]);
      ApartConcat([LPunct(',')], ItemLexemes(items[1..]));
      ApartConcat(LexemesOf(items[0]), [LPunct(',')] + ItemLexemes(items[1..]));
    }
  }

  lemma {:induction false} MembersApart(members: seq<Member>)
    requires members != [] && forall i :: 0 <= i < |members| ==> PrintableMember(members[i])
    ensures Apart(MemberLexemes(members))
    decreases members, 1
  {
    hide Apart, LexemesOf, Printable;
    assert members decreases to members[0];
    assert members[0] decreases to members[0].value;
    var head, value := [LStr(members[0].key), LPunct(':')], members[0].value;
    TwoApart(LStr(members[0].key), LPunct(':'));
    assert PrintableMember(members[0]);
    ValueApart(value);
    ApartConcat(head, LexemesOf(value));
    if |members| == 1 {
      OneApart(LPunct('}'));
      ApartConcat(head + LexemesOf(value), [LPunct('}')]);
    } else {
      OneApart(LPunct(','));
      MembersApart(members[1..]);
      ApartConcat([LPunct(',')], MemberLexemes(members[1..]));
      ApartConcat(head + LexemesOf(value), [LPunct(',')] + MemberLexemes(members[1..]));
    }
  }

  // ----- The printer's output, piece by piece -----

  /** A piece after all the replacements. */
  function Fold(p: Piece, ns: seq<nat>): Piece
    decreases |ns|
  {
    if ns == [] then p else Fold(Settle(p, ns[0]), ns[1..])
  }

  function FoldAll(ps: seq<Piece>, ns: seq<nat>): (r: seq<Piece>)
    ensures |r| == |ps| && forall i :: 0 <= i < |ps| ==> r[i] == Fold(ps[i], ns)
    decreases |ns|
  {
    if ns == [] then ps else FoldAll(SettleAll(ps, ns[0]), ns[1..])
  }

  lemma {:induction false} EachReplaced(ps: seq<Piece>, ns: seq<nat>)
    requires Separated(ps)
    ensures ReplaceEach(PiecesText(ps), ns) == PiecesText(FoldAll(ps, ns))
    ensures Separated(FoldAll(ps, ns))
    decreases |ns|
  {
    hide ReplaceAll, PiecesText, Quoted, Separated;
    if ns != [] {
      PiecesReplaced(ps, ns[0]);
      EachReplaced(SettleAll(ps, ns[0]), ns[1..]);
    }
  }

  lemma {:induction false} GoodText(ls: seq<Lexeme>)
    ensures PiecesText(GoodAll(ls)) == Text(Tokens(ls))
  {
    hide TokenOf, TokenText;
    if ls != [] {
      GoodText(ls[1..]);
      assert Tokens(ls)[1..] == Tokens(ls[1..]) && GoodAll(ls)[1..] == GoodAll(ls[1..]);
    }
  }

  /** The pieces of the text that `ToJson` returns. */
  function Output(v: Json): (ps: seq<Piece>)
    ensures |ps| == |LexemesOf(v)|
    ensures forall i :: 0 <= i < |ps| ==> ps[i] == Fold(Good(Held(LexemesOf(v)[i])), LargeIntegers(LexemesOf(v)))
  {
    var ls := LexemesOf(v);
    FoldAll(GoodAll(HeldAll(ls)), LargeIntegers(ls))
  }

  lemma OutputText(v: Json)
    requires Printable(v)
    ensures ToJson(v) == PiecesText(Output(v)) && Separated(Output(v))
  {
    hide LexemesOf, PiecesText, Text, Separated;
    var ls := LexemesOf(v);
    ValueApart(v);
    HeldApart(ls);
    GoodText(HeldAll(ls));
    EachReplaced(GoodAll(HeldAll(ls)), LargeIntegers(ls));
  }

  lemma HeldApart(ls: seq<Lexeme>)
    requires Apart(ls)
    ensures Separated(GoodAll(HeldAll(ls)))
  {
    hide Placeholder, Apart;
    ApartIff(ls);
    ApartIff(HeldAll(ls));
    assert forall i :: 0 <= i < |ls| ==> (Punctuation(Held(ls[i])) <==> Punctuation(ls[i]));
    IsApart(HeldAll(ls));
  }

  lemma IsApart(ls: seq<Lexeme>)
    ensures Apart(ls) <==> Separated(GoodAll(ls))
  {
  }

  // ----- What the replacements make of one lexeme -----

  lemma {:induction false} Settled(p: Piece, ns: seq<nat>)
    requires p.Broken? || !p.l.LStr?
    ensures Fold(p, ns) == p
  {
    if ns != [] {
      Settled(p, ns[1..]);
    }
  }

  lemma {:induction false} StringFolded(s: string, ns: seq<nat>)
    ensures var p := Fold(Good(LStr(s)), ns);
            && ((forall n :: n in ns ==> !Clashes(s, n)) ==> p == Good(LStr(s)))
            && ((exists n :: n in ns && Clashes(s, n)) ==>
                  p.Broken? || (exists n :: n in ns && s == Placeholder(n) && p == Good(LNum(n))))
  {
    hide Placeholder, EndsWith;
    if ns != [] {
      if Clashes(s, ns[0]) {
        Settled(Settle(Good(LStr(s)), ns[0]), ns[1..]);
      } else {
        StringFolded(s, ns[1..]);
        assert forall n :: n in ns <==> n == ns[0] || n in ns[1..];
      }
    }
  }

  /** The placeholder of a large integer becomes that integer's digits again. */
  lemma {:induction false} PlaceholderFolded(m: nat, ns: seq<nat>)
    requires m in ns
    ensures Fold(Good(LStr(Placeholder(m))), ns) == Good(LNum(m))
  {
    hide Hex, EndsWith;
    var n := ns[0];
    if n == m {
      Settled(Good(LNum(m)), ns[1..]);
    } else {
      if Placeholder(m) == Placeholder(n) {
        assert Placeholder(m)[2..] == Hex(m) && Placeholder(n)[2..] == Hex(n);
        HexIsInjective(m, n);
      }
      NoPlaceholderInside(m, n);
      PlaceholderFolded(m, ns[1..]);
    }
  }

  lemma NoPlaceholderInside(m: nat, n: nat)
    ensures !EndsWith(Placeholder(m), "\"" + Placeholder(n))
  {
    hide Placeholder;
    PlaceholderIsHex(m);
    var s, q := Placeholder(m), "\"" + Placeholder(n);
    assert q[0] == '"';
    if |q| <= |s| {
      assert s[|s| - |q|..][0] == s[|s| - |q|];
    }
  }

  lemma OutputPiece(v: Json, i: nat)
    requires i < |LexemesOf(v)|
    ensures var l, p := LexemesOf(v)[i], Output(v)[i];
            && (!l.LStr? ==> p == Good(l))
            && (l.LStr? && (forall n :: n in LargeIntegers(LexemesOf(v)) ==> !Clashes(l.s, n)) ==> p == Good(l))
            && (l.LStr? && (exists n :: n in LargeIntegers(LexemesOf(v)) && Clashes(l.s, n)) ==>
                  p.Broken? || (exists n :: n in LargeIntegers(LexemesOf(v)) && l.s == Placeholder(n) && p == Good(LNum(n))))
  {
    hide LexemesOf, Placeholder, Clashes;
    var ls := LexemesOf(v);
    var l, ns := ls[i], LargeIntegers(ls);
    if l.LStr? {
      StringFolded(l.s, ns);
    } else if l.LNum? && Large(l.n) {
      assert LNum(l.n) in ls;
      PlaceholderFolded(l.n, ns);
    } else {
      Settled(Good(l), ns);
    }
  }

  lemma OutputWithoutClash(v: Json)
    requires Printable(v) && NoClash(v)
    ensures ToJson(v) == Text(Tokens(LexemesOf(v)))
  {
    hide LexemesOf, PiecesText, Text, Clashes;
    OutputText(v);
    var ls := LexemesOf(v);
    forall i | 0 <= i < |ls|
      ensures Output(v)[i] == Good(ls[i])
    {
      OutputPiece(v, i);
      if ls[i].LStr? {
        assert LStr(ls[i].s) in ls;
      }
    }
    assert Output(v) == GoodAll(ls);
    GoodText(ls);
  }
}
