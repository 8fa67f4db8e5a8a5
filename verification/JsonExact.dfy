/**
 The exact condition under which json-utils.ts gives back what it was given:
 `parseBigIntAwareJson(toBigIntAwareJson(v))` is `v` if and only if no string or key is
 taken for a placeholder in use, no string value starts with the marker, and `Number`
 changes no integer of `v`.
 */
module JsonExact {
  import opened Wrappers
  import opened Numerals
  import opened Sequences
  import opened JsonText
  import opened JsonParse
  import opened JsonIntegers
  import opened JsonBigInt
  import opened JsonReplace
  import opened JsonLaws
  import opened JsonRoundTrip

  // ----- The parsed tree before the reviver -----

  function MarkInteger(n: int): Json {
    if Safe(n) then JInt(n) else JStr(Marked(LNum(n)).s)
  }

  /** The value with its unsafe integers as marked strings. */
  function MarkTree(v: Json): Json {
    MapIntegers(v, MarkInteger)
  }

  lemma TreeLexemes(v: Json)
    ensures LexemesOf(MarkTree(v)) == MarkedAll(LexemesOf(v))
  {
    hide Marked, MapIntegers;
    var ls := LexemesOf(v);
    MappedLexemes(v, MarkInteger);
    forall i | 0 <= i < |ls|
      ensures MapLexeme(ls[i], MarkInteger) == Marked(ls[i])
    {
      MarkedLexeme(ls[i]);
    }
    assert MapLexemes(ls, MarkInteger) == MarkedAll(ls);
  }

  lemma MarkedLexeme(l: Lexeme)
    ensures MapLexeme(l, MarkInteger) == Marked(l)
  {
  }

  // ----- The reviver -----

  lemma DigitsAreRead(n: int)
    ensures BigIntOf(Sign(n < 0) + Decimal(if n < 0 then -n else n)) == Some(n)
  {
    hide Decimal;
    var digits := Decimal(if n < 0 then -n else n);
    DecimalReadsBack(if n < 0 then -n else n);
    assert IsDigit(digits[0]);
    if n < 0 {
      assert (Sign(n < 0) + digits)[1..] == digits;
    } else {
      assert Sign(n < 0) + digits == digits;
    }
  }

  lemma IntegerRevived(n: int)
    ensures Revive(MarkInteger(n)) == Some(JInt(n))
  {
    hide Decimal, BigIntOf, Sign;
    var digits := Sign(n < 0) + Decimal(if n < 0 then -n else n);
    DigitsAreRead(n);
    Associate(BIGINT_MARKER, Sign(n < 0), Decimal(if n < 0 then -n else n));
    assert (BIGINT_MARKER + digits)[|BIGINT_MARKER|..] == digits;
  }

  lemma NumberRevived(n: int, number: int -> Json)
    requires Rounding(number)
    ensures Revive(MarkTree(number(n))) == Some(JInt(n)) <==> number(n) == JInt(n)
  {
    hide Revive, MarkInteger;
    match number(n)
    case JInt(m) => IntegerRevived(m);
    case w => UntouchedByReviver(w);
  }

  lemma UntouchedByReviver(v: Json)
    requires v.JNull? || v.JFloat?
    ensures Revive(MarkTree(v)) == Some(v)
  {
  }

  /** What is revived is the value if and only if no string value looks marked and `Number` kept every integer. */
  lemma {:induction false} TreeRevived(v: Json, number: int -> Json)
    requires Rounding(number)
    ensures Revive(MarkTree(MapIntegers(v, number))) == Some(v) <==> NoMarker(v) && Kept(v, number)
    decreases v, 0
  {
    if v.JInt? {
      NumberRevived(v.n, number);
    } else if v.JArr? {
      ItemsRevived(v.items, number);
    } else if v.JObj? {
      MembersRevived(v.members, number);
    }
  }

  lemma {:induction false} ItemsRevived(items: seq<Json>, number: int -> Json)
    requires Rounding(number)
    ensures ReviveItems(MapItems(MapItems(items, number), MarkInteger)) == Some(items) <==>
            forall i :: 0 <= i < |items| ==> NoMarker(items[i]) && Kept(items[i], number)
    decreases items, 1
  {
    hide Revive, MapIntegers, Rounding, NoMarker, Kept;
    if items != [] {
      TreeRevived(items[0], number);
      ItemsRevived(items[1..], number);
      var marked := MapItems(MapItems(items, number), MarkInteger);
      assert marked[1..] == MapItems(MapItems(items[1..], number), MarkInteger);
      assert items == [items[0]] + items[1..];
      assert forall i :: 0 < i < |items| ==> items[i] == items[1..][i - 1];
    }
  }

  lemma {:induction false} MembersRevived(members: seq<Member>, number: int -> Json)
    requires Rounding(number)
    ensures ReviveMembers(MapMembers(MapMembers(members, number), MarkInteger)) == Some(members) <==>
            forall i :: 0 <= i < |members| ==> NoMarkerIn(members[i]) && KeptIn(members[i], number)
    decreases members, 1
  {
    hide Revive, MapIntegers, Rounding, NoMarker, Kept;
    if members != [] {
      assert members decreases to members[0];
      assert members[0] decreases to members[0].value;
      TreeRevived(members[0].value, number);
      MembersRevived(members[1..], number);
      var marked := MapMembers(MapMembers(members, number), MarkInteger);
      assert marked[1..] == MapMembers(MapMembers(members[1..], number), MarkInteger);
      FirstMemberRevived(marked, members);
      assert forall i :: 0 < i < |members| ==> members[i] == members[1..][i - 1];
    }
  }

  lemma FirstMemberRevived(marked: seq<Member>, members: seq<Member>)
    requires |marked| == |members| > 0 && marked[0].key == members[0].key
    ensures ReviveMembers(marked) == Some(members) <==>
            Revive(marked[0].value) == Some(members[0].value) && ReviveMembers(marked[1..]) == Some(members[1..])
  {
    hide Revive;
    assert members == [members[0]] + members[1..];
  }

  // ----- Without a clash -----

  lemma WithoutClash(v: Json)
    requires Printable(v) && NoClash(v)
    ensures Parse(Outside(ToJson(v), false)) == Some(MarkTree(v))
  {
    hide LexemesOf, Outside, Lex, Lexemes, ToJson, MarkTree, ParseValue, NoClash, Text, Tokens, MarkedAll, Apart;
    var ls := LexemesOf(v);
    var ms := MarkedAll(ls);
    OutputWithoutClash(v);
    ValueApart(v);
    NothingLeft();
    assert Text(Tokens(ls)) + "" == Text(Tokens(ls));
    FrontPasses(ls, "");
    assert Tokens(ms) + [] == Tokens(ms);
    MarkedMeans(ls, []);
    assert ms + [] == ms;
    TreeLexemes(v);
    PrintedIsParsed(MarkTree(v), []);
    assert LexemesOf(MarkTree(v)) + [] == ms;
  }

  // ----- With a clash -----

  /** The lexeme is a key: a colon follows. */
  predicate KeyAt(ls: seq<Lexeme>, i: nat) {
    i + 1 < |ls| && ls[i + 1] == LPunct(':')
  }

  /** `b` has the lexemes of `a`, except that marked strings other than keys have become their integers. */
  predicate Kin(a: seq<Lexeme>, b: seq<Lexeme>) {
    |a| == |b| && forall i :: 0 <= i < |a| ==> RevivedTo(a[i], KeyAt(a, i), b[i])
  }

  predicate RevivedTo(l: Lexeme, isKey: bool, m: Lexeme) {
    if !isKey && l.LStr? && HasMarker(l.s) then m.LNum? && BigIntOf(l.s[|BIGINT_MARKER|..]) == Some(m.n)
    else m == l
  }

  lemma KinConcat(a: seq<Lexeme>, b: seq<Lexeme>, c: seq<Lexeme>, d: seq<Lexeme>)
    requires Kin(a, b) && Kin(c, d) && (c == [] || c[0] != LPunct(':'))
    ensures Kin(a + c, b + d)
  {
    hide RevivedTo;
    forall i | 0 <= i < |a + c|
      ensures RevivedTo((a + c)[i], KeyAt(a + c, i), (b + d)[i])
    {
      if i < |a| {
        assert KeyAt(a + c, i) == KeyAt(a, i);
      } else {
        assert KeyAt(a + c, i) == KeyAt(c, i - |a|);
      }
    }
  }

  lemma NoColonFirst(v: Json)
    ensures LexemesOf(v)[0] != LPunct(':')
  {
  }

  lemma {:induction false} RevivedKin(w: Json)
    requires Revive(w).Some?
    ensures Kin(LexemesOf(w), LexemesOf(Revive(w).value))
    decreases w, 0
  {
    if w.JArr? && w.items != [] {
      ItemsRevivedKin(w.items);
      NoColonFirst(w.items[0]);
      KinConcat([LPunct('[')], [LPunct('[')], ItemLexemes(w.items), ItemLexemes(ReviveItems(w.items).value));
    } else if w.JObj? && w.members != [] {
      MembersRevivedKin(w.members);
      KinConcat([LPunct('{')], [LPunct('{')], MemberLexemes(w.members), MemberLexemes(ReviveMembers(w.members).value));
    }
  }

  lemma {:induction false} ItemsRevivedKin(items: seq<Json>)
    requires items != [] && ReviveItems(items).Some?
    ensures Kin(ItemLexemes(items), ItemLexemes(ReviveItems(items).value))
    decreases items, 1
  {
    hide LexemesOf, Revive, Kin, RevivedTo;
    RevivedKin(items[0]);
    var revived := ReviveItems(items).value;
    if |items| == 1 {
      SameKin([LPunct(']')]);
      KinConcat(LexemesOf(items[0]), LexemesOf(revived[0]), [LPunct(']')], [LPunct(']')]);
    } else {
      ItemsRevivedKin(items[1..]);
      assert revived[1..] == ReviveItems(items[1..]).value;
      SameKin([LPunct(',')]);
      NoColonFirst(items[1]);
      KinConcat([LPunct(',')], [LPunct(',')], ItemLexemes(items[1..]), ItemLexemes(revived[1..]));
      KinConcat(LexemesOf(items[0]), LexemesOf(revived[0]),
                [LPunct(',')] + ItemLexemes(items[1..]), [LPunct(',')] + ItemLexemes(revived[1..]));
    }
  }

  lemma SameKin(a: seq<Lexeme>)
    requires forall i :: 0 <= i < |a| && a[i].LStr? ==> KeyAt(a, i)
    ensures Kin(a, a)
  {
  }

  lemma {:induction false} MembersRevivedKin(members: seq<Member>)
    requires members != [] && ReviveMembers(members).Some?
    ensures Kin(MemberLexemes(members), MemberLexemes(ReviveMembers(members).value))
    decreases members, 1
  {
    hide LexemesOf, Revive, Kin, RevivedTo;
    assert members decreases to members[0];
    assert members[0] decreases to members[0].value;
    RevivedKin(members[0].value);
    var revived := ReviveMembers(members).value;
    var head := [LStr(members[0].key), LPunct(':')];
    SameKin(head);
    NoColonFirst(members[0].value);
    KinConcat(head, head, LexemesOf(members[0].value), LexemesOf(revived[0].value));
    if |members| == 1 {
      SameKin([LPunct('}')]);
      KinConcat(head + LexemesOf(members[0].value), head + LexemesOf(revived[0].value), [LPunct('}')], [LPunct('}')]);
    } else {
      MembersRevivedKin(members[1..]);
      assert revived[1..] == ReviveMembers(members[1..]).value;
      SameKin([LPunct(',')]);
      KinConcat([LPunct(',')], [LPunct(',')], MemberLexemes(members[1..]), MemberLexemes(revived[1..]));
      KinConcat(head + LexemesOf(members[0].value), head + LexemesOf(revived[0].value),
                [LPunct(',')] + MemberLexemes(members[1..]), [LPunct(',')] + MemberLexemes(revived[1..]));
    }
  }

  /** Where the output is not what was meant, a string was replaced or broken. */
  lemma ChangedPiece(v: Json, k: nat)
    requires k < |LexemesOf(v)| && Output(v)[k] != Good(LexemesOf(v)[k])
    ensures LexemesOf(v)[k].LStr?
    ensures Output(v)[k].Broken? ||
            exists n :: n in LargeIntegers(LexemesOf(v)) && LexemesOf(v)[k].s == Placeholder(n) && Output(v)[k] == Good(LNum(n))
  {
    hide LexemesOf, Clashes, Placeholder, Output, LargeIntegers;
    OutputPiece(v, k);
  }

  lemma SomeClash(v: Json) returns (j: nat)
    requires !NoClash(v)
    ensures j < |LexemesOf(v)| && Output(v)[j] != Good(LexemesOf(v)[j])
  {
    hide LexemesOf, Clashes, Placeholder, Output, LargeIntegers;
    var ls := LexemesOf(v);
    var s, n :| LStr(s) in ls && n in LargeIntegers(ls) && Clashes(s, n);
    j :| 0 <= j < |ls| && ls[j] == LStr(s);
    OutputPiece(v, j);
  }

  /** The first place where the output is not what was meant, and what stands there. */
  lemma FirstClash(v: Json) returns (k: nat)
    requires !NoClash(v)
    ensures k < |LexemesOf(v)| && LexemesOf(v)[k].LStr?
    ensures forall i :: 0 <= i < k ==> Output(v)[i] == Good(LexemesOf(v)[i])
    ensures Output(v)[k].Broken? ||
            exists n :: n in LargeIntegers(LexemesOf(v)) && LexemesOf(v)[k].s == Placeholder(n) && Output(v)[k] == Good(LNum(n))
  {
    hide LexemesOf, Placeholder, Output, LargeIntegers, NoClash;
    var ls := LexemesOf(v);
    var j := SomeClash(v);
    k := 0;
    while Output(v)[k] == Good(ls[k])
      invariant k <= j
      invariant forall i :: 0 <= i < k ==> Output(v)[i] == Good(ls[i])
      decreases j - k
    {
      k := k + 1;
    }
    ChangedPiece(v, k);
  }

  lemma {:induction false} PiecesConcat(a: seq<Piece>, b: seq<Piece>)
    ensures PiecesText(a + b) == PiecesText(a) + PiecesText(b)
  {
    hide PieceText;
    if a == [] {
      assert a + b == b;
    } else {
      assert (a + b)[1..] == a[1..] + b;
      PiecesConcat(a[1..], b);
    }
  }

  /** The output up to a piece that is not punctuation, and what comes after it. */
  lemma Around(v: Json, k: nat)
    requires Printable(v) && k < |LexemesOf(v)| && !Plain(Output(v)[k])
    ensures var ps := Output(v);
            && ToJson(v) == PiecesText(ps[..k]) + (PieceText(ps[k]) + PiecesText(ps[k + 1..]))
            && Separated(ps[..k]) && Separated(ps[..k + 1])
            && (k > 0 ==> Plain(ps[k - 1])) && Begins(PiecesText(ps[k + 1..]))
  {
    hide LexemesOf, PieceText, PiecesText, Output, ToJson, Separated;
    OutputText(v);
    SplitText(Output(v), k);
    SplitSeparated(Output(v), k);
    PiecesBegin(Output(v)[k + 1..]);
  }

  lemma SplitText(ps: seq<Piece>, k: nat)
    requires k < |ps|
    ensures PiecesText(ps) == PiecesText(ps[..k]) + (PieceText(ps[k]) + PiecesText(ps[k + 1..]))
  {
    hide PieceText, PiecesText;
    assert ps == ps[..k] + ps[k..];
    PiecesConcat(ps[..k], ps[k..]);
    TailText(ps, k);
  }

  lemma TailText(ps: seq<Piece>, k: nat)
    requires k < |ps|
    ensures PiecesText(ps[k..]) == PieceText(ps[k]) + PiecesText(ps[k + 1..])
  {
    hide PieceText;
    assert ps[k..][0] == ps[k] && ps[k..][1..] == ps[k + 1..];
  }

  lemma SplitSeparated(ps: seq<Piece>, k: nat)
    requires k < |ps| && Separated(ps) && !Plain(ps[k])
    ensures Separated(ps[..k]) && Separated(ps[..k + 1])
    ensures (k > 0 ==> Plain(ps[k - 1])) && (k + 1 < |ps| ==> Plain(ps[k + 1]))
  {
    hide Plain, Wellformed;
  }

  /**
   A whole string was replaced: if anything is received, it has the number where the value
   has the string, or the marked number where the value has it as a key.
   */
  lemma NumberForString(v: Json, k: nat, n: nat)
    requires Printable(v) && k < |LexemesOf(v)| && n in LargeIntegers(LexemesOf(v))
    requires forall i :: 0 <= i < k ==> Output(v)[i] == Good(LexemesOf(v)[i])
    requires LexemesOf(v)[k] == LStr(Placeholder(n)) && Output(v)[k] == Good(LNum(n))
    ensures var received := FromJson(ToJson(v));
            received.Some? ==>
              && k < |LexemesOf(received.value)|
              && LexemesOf(received.value)[k] ==
                 (if KeyAt(LexemesOf(v), k) then LStr(BIGINT_MARKER + Decimal(n)) else LNum(n))
              && LexemesOf(received.value)[k] != LexemesOf(v)[k]
  {
    hide LexemesOf, Outside, ToJson, Parse, Placeholder, Output, Revive, Decimal, KeyAt, Marked;
    var w := Parse(Outside(ToJson(v), false));
    if w.Some? && Revive(w.value).Some? {
      PlaceInText(v, k, n);
      RevivedKin(w.value);
      PlaceholderStart(n);
      MarkedIsRevived(n);
      assert RevivedTo(LexemesOf(w.value)[k], KeyAt(LexemesOf(w.value), k), LexemesOf(Revive(w.value).value)[k]);
    }
  }

  /** Where the value has the string, the text that is parsed has the marked number. */
  lemma PlaceInText(v: Json, k: nat, n: nat)
    requires Printable(v) && k < |LexemesOf(v)| && n in LargeIntegers(LexemesOf(v))
    requires forall i :: 0 <= i < k ==> Output(v)[i] == Good(LexemesOf(v)[i])
    requires LexemesOf(v)[k] == LStr(Placeholder(n)) && Output(v)[k] == Good(LNum(n))
    ensures var w := Parse(Outside(ToJson(v), false));
            w.Some? ==>
              var ms := LexemesOf(w.value);
              k < |ms| && ms[k] == Marked(LNum(n)) && KeyAt(ms, k) == KeyAt(LexemesOf(v), k)
  {
    hide LexemesOf, Outside, Lex, Lexemes, ToJson, ParseValue, Text, Placeholder, Output, Apart, PiecesText, Apart, Tokens, Marked;
    var front, after := LexemesOf(v)[..k] + [LNum(n)], PiecesText(Output(v)[k + 1..]);
    Around(v, k);
    FrontIsPrinted(v, k, n);
    FrontText(v, k, n);
    FrontPasses(front, after);
    var w := Parse(Outside(ToJson(v), false));
    if w.Some? {
      var rest := Lex(Outside(after, false)).value;
      MarkedMeans(front, rest);
      ParsedIsPrinted(Lexemes(Tokens(MarkedAll(front)) + rest).value);
      assert LexemesOf(w.value) + [] == LexemesOf(w.value);
      NextIsKept(v, k);
    }
  }

  /** The punctuation behind a string stays where it is. */
  lemma NextIsKept(v: Json, k: nat)
    requires Printable(v) && k < |LexemesOf(v)| && LexemesOf(v)[k].LStr?
    ensures var rest := Lex(Outside(PiecesText(Output(v)[k + 1..]), false));
            rest.Some? && Lexemes(rest.value).Some? ==>
              var next := Lexemes(rest.value).value;
              (next != [] && next[0] == LPunct(':')) == KeyAt(LexemesOf(v), k)
  {
    hide Printable, LexemesOf, Output, Lex, Outside, PiecesText;
    var ls, tail := LexemesOf(v), Output(v)[k + 1..];
    if k + 1 < |ls| {
      PunctFollows(v, k);
      assert tail[0] == Good(LPunct(ls[k + 1].c));
      FirstPiece(tail);
      PunctFirst(ls[k + 1].c, PiecesText(tail[1..]));
    } else {
      assert tail == [];
      NoPieces();
      NothingLeft();
    }
  }

  lemma PunctFollows(v: Json, k: nat)
    requires Printable(v) && k + 1 < |LexemesOf(v)| && LexemesOf(v)[k].LStr?
    ensures Punctuation(LexemesOf(v)[k + 1])
    ensures Output(v)[k + 1] == Good(LexemesOf(v)[k + 1])
  {
    hide Printable, LexemesOf, Output, Wellformed, Apart;
    ValueApart(v);
    ApartIff(LexemesOf(v));
    OutputPiece(v, k + 1);
  }

  lemma PunctFirst(c: char, more: string)
    requires c in ",:[]{}"
    ensures var rest := Lex(Outside([c] + more, false));
            rest.Some? && Lexemes(rest.value).Some? ==>
              Lexemes(rest.value).value != [] && Lexemes(rest.value).value[0] == LPunct(c)
  {
    hide Lex, Outside;
    CopiesOther([c] + more);
    assert ([c] + more)[1..] == more;
    LexPunct(c, Outside(more, false));
  }

  lemma FirstPiece(ps: seq<Piece>)
    requires ps != []
    ensures PiecesText(ps) == PieceText(ps[0]) + PiecesText(ps[1..])
  {
  }

  lemma NoPieces()
    ensures PiecesText([]) == ""
  {
  }

  lemma MarkedIsRevived(n: nat)
    requires Large(n)
    ensures Marked(LNum(n)) == LStr(BIGINT_MARKER + Decimal(n))
    ensures forall m :: RevivedTo(Marked(LNum(n)), false, m) ==> m == LNum(n)
    ensures forall m :: RevivedTo(Marked(LNum(n)), true, m) ==> m == Marked(LNum(n))
  {
    hide Decimal;
    DecimalReadsBack(n);
    var text := BIGINT_MARKER + Decimal(n);
    assert text[|BIGINT_MARKER|..] == Decimal(n);
    assert IsDigit(Decimal(n)[0]);
  }

  lemma PlaceholderStart(n: nat)
    requires Large(n)
    ensures Marked(LNum(n)) != LStr(Placeholder(n))
  {
    assert Placeholder(n)[0] == '0';
    assert Marked(LNum(n)).s[0] == '_';
  }

  lemma FrontIsPrinted(v: Json, k: nat, n: nat)
    requires Printable(v) && k < |LexemesOf(v)|
    requires forall i :: 0 <= i < k ==> Output(v)[i] == Good(LexemesOf(v)[i])
    requires Output(v)[k] == Good(LNum(n)) && Separated(Output(v)[..k + 1])
    ensures Apart(LexemesOf(v)[..k] + [LNum(n)])
  {
    hide LexemesOf, Output, Separated, Printable;
    var front := LexemesOf(v)[..k] + [LNum(n)];
    assert GoodAll(front) == Output(v)[..k + 1];
  }

  lemma FrontText(v: Json, k: nat, n: nat)
    requires Printable(v) && k < |LexemesOf(v)| && Output(v)[k] == Good(LNum(n))
    requires forall i :: 0 <= i < k ==> Output(v)[i] == Good(LexemesOf(v)[i])
    ensures ToJson(v) == Text(Tokens(LexemesOf(v)[..k] + [LNum(n)])) + PiecesText(Output(v)[k + 1..])
  {
    hide LexemesOf, Output, PieceText, ToJson, PiecesText, Text, Tokens;
    var ps := Output(v);
    var front := LexemesOf(v)[..k] + [LNum(n)];
    Around(v, k);
    assert GoodAll(front) == ps[..k] + [ps[k]];
    GoodText(front);
    PiecesConcat(ps[..k], [ps[k]]);
    OneText(ps[k]);
    Associate(PiecesText(ps[..k]), PieceText(ps[k]), PiecesText(ps[k + 1..]));
  }

  lemma OneText(p: Piece)
    ensures PiecesText([p]) == PieceText(p)
  {
  }

  // ----- A string that lost its closing quote -----

  lemma {:induction false} RawLengthThrough(raw: string, next: string)
    requires ValidRaw(raw)
    ensures RawLength(raw + next) ==
            if RawLength(next).None? then None else Some(|raw| + RawLength(next).value)
    decreases |raw|
  {
    var s := raw + next;
    if raw == "" {
      assert s == next;
    } else if raw[0] == '\\' {
      assert s[2..] == raw[2..] + next;
      RawLengthThrough(raw[2..], next);
    } else {
      assert s[1..] == raw[1..] + next;
      RawLengthThrough(raw[1..], next);
    }
  }

  /** A backslash before a digit is no escape: nothing that contains it as one can be parsed. */
  lemma DigitNotEscaped(s: string, d: char, next: string)
    requires IsDigit(d)
    ensures var y := "\\" + [d] + next;
            match RawLength(EscapeAll(s) + y)
            case None => true
            case Some(k) => Unescape((EscapeAll(s) + y)[..k]).None?
  {
    hide EscapeAll, RawLength, Unescape;
    var y := "\\" + [d] + next;
    EscapedIsValid(s);
    RawLengthThrough(EscapeAll(s), y);
    BackslashLength(d, next);
    var k := RawLength(y);
    if k.Some? {
      var tail := y[..k.value];
      assert (EscapeAll(s) + y)[..|EscapeAll(s)| + k.value] == EscapeAll(s) + tail;
      UnescapeEscaped(s, tail);
      NoSuchEscape(tail);
    }
  }

  lemma BackslashLength(d: char, next: string)
    ensures var k := RawLength("\\" + [d] + next); k.Some? ==> k.value >= 2
  {
  }

  lemma NoSuchEscape(tail: string)
    requires |tail| >= 2 && tail[0] == '\\' && IsDigit(tail[1])
    ensures Unescape(tail).None?
  {
    assert UnescapeFirst(tail).None?;
  }

  lemma LexOpenString(s: string)
    ensures var k := RawLength(s);
            Lex("\"" + s) == if k.None? then None else Cons(Str(s[..k.value]), Lex(s[k.value + 1..]))
  {
    hide RawLength, NumberLength, NumberToken;
    assert ("\"" + s)[1..] == s;
  }

  lemma BrokenPasses(s: string, n: nat, after: string) returns (rest: string)
    ensures Outside(PieceText(Broken(s, n)) + after, false) ==
            "\"" + (EscapeAll(s) + ("\\" + [Decimal(n)[0]] + rest))
  {
    hide EscapeAll, Decimal, Outside, Inside;
    var d, y := Decimal(n)[0], "\\" + Decimal(n) + after;
    var text := EscapeAll(s) + y;
    assert PieceText(Broken(s, n)) + after == "\"" + text;
    assert ("\"" + text)[1..] == text;
    EntersString("\"" + text);
    EscapedIsValid(s);
    InsideCopies(EscapeAll(s), y);
    assert y[..2] == "\\" + [d];
    CopiesEscape(y);
    rest := Inside(y[2..]);
  }

  lemma BrokenIsNotLexed(s: string, n: nat, after: string)
    ensures var ts := Lex(Outside(PieceText(Broken(s, n)) + after, false));
            ts.None? || Lexemes(ts.value).None?
  {
    hide EscapeAll, Decimal, Outside, PieceText, RawLength, Unescape, Lex;
    var x, d := Outside(PieceText(Broken(s, n)) + after, false), Decimal(n)[0];
    var rest := BrokenPasses(s, n, after);
    assert IsDigit(d);
    DigitNotEscaped(s, d, rest);
    LexOpenString(EscapeAll(s) + ("\\" + [d] + rest));
  }

  /** The end of a string was replaced: what is left of the text does not parse. */
  lemma StringBroken(v: Json, k: nat, s: string, n: nat)
    requires Printable(v) && k < |LexemesOf(v)| && Output(v)[k] == Broken(s, n)
    requires forall i :: 0 <= i < k ==> Output(v)[i] == Good(LexemesOf(v)[i])
    ensures Parse(Outside(ToJson(v), false)).None?
  {
    hide LexemesOf, Outside, Lex, Lexemes, ToJson, ParseValue, Text, Output, PieceText, Apart, Tokens, PiecesText;
    var front := LexemesOf(v)[..k];
    var after := PieceText(Broken(s, n)) + PiecesText(Output(v)[k + 1..]);
    Around(v, k);
    assert GoodAll(front) == Output(v)[..k];
    GoodText(front);
    BrokenFrontIsPrinted(v, k);
    FrontPasses(front, after);
    BrokenIsNotLexed(s, n, PiecesText(Output(v)[k + 1..]));
    var rest := Lex(Outside(after, false));
    if rest.Some? {
      MarkedMeans(front, rest.value);
    }
  }

  lemma BrokenFrontIsPrinted(v: Json, k: nat)
    requires Printable(v) && k < |LexemesOf(v)| && Separated(Output(v)[..k])
    requires forall i :: 0 <= i < k ==> Output(v)[i] == Good(LexemesOf(v)[i])
    ensures Apart(LexemesOf(v)[..k])
  {
    hide LexemesOf, Output, Separated, Printable;
    assert GoodAll(LexemesOf(v)[..k]) == Output(v)[..k];
  }

  // ----- The first clash decides -----

  predicate NoClashBefore(v: Json, k: nat)
    requires k < |LexemesOf(v)|
  {
    forall i, n :: 0 <= i < k && LexemesOf(v)[i].LStr? && n in LargeIntegers(LexemesOf(v)) ==> !Clashes(LexemesOf(v)[i].s, n)
  }

  lemma GoodBefore(v: Json, k: nat)
    requires k < |LexemesOf(v)| && NoClashBefore(v, k)
    ensures forall i :: 0 <= i < k ==> Output(v)[i] == Good(LexemesOf(v)[i])
  {
    hide LexemesOf, Clashes, Output, LargeIntegers;
    forall i | 0 <= i < k
      ensures Output(v)[i] == Good(LexemesOf(v)[i])
    {
      OutputPiece(v, i);
    }
  }

  // ----- Integers that pass through `Number` -----

  /** What a lexeme may become; strings, punctuation and placeholders stay. */
  predicate RoundedTo(l: Lexeme, m: Lexeme) {
    if l.LNum? && l.n < MIN_SAFE_INTEGER then (m.LNum? && !Large(m.n)) || m.LFloat? || m.LWord? else m == l
  }

  lemma RoundedLexemes(v: Json, number: int -> Json)
    requires Rounding(number)
    ensures var ls, ms := LexemesOf(v), LexemesOf(MapIntegers(v, number));
            |ms| == |ls| && forall i :: 0 <= i < |ls| ==> RoundedTo(ls[i], ms[i])
  {
    hide MapIntegers, RoundedTo;
    var ls := LexemesOf(v);
    MappedLexemes(v, number);
    forall i | 0 <= i < |ls|
      ensures RoundedTo(ls[i], MapLexeme(ls[i], number))
    {
      RoundedLexeme(ls[i], number);
    }
  }

  lemma RoundedLexeme(l: Lexeme, number: int -> Json)
    requires Rounding(number)
    ensures RoundedTo(l, MapLexeme(l, number))
  {
  }

  /** So the same strings clash with the same placeholders. */
  lemma SameClashes(v: Json, number: int -> Json)
    requires Rounding(number)
    ensures forall n :: n in LargeIntegers(LexemesOf(v)) <==> n in LargeIntegers(LexemesOf(MapIntegers(v, number)))
    ensures NoClash(v) <==> NoClash(MapIntegers(v, number))
  {
    hide LexemesOf, MapIntegers, Rounding, Clashes, LargeIntegers;
    var ls, ms := LexemesOf(v), LexemesOf(MapIntegers(v, number));
    RoundedLexemes(v, number);
    assert forall l :: l in ls && !(l.LNum? && l.n < MIN_SAFE_INTEGER) ==> l in ms;
    assert forall s :: LStr(s) in ls <==> LStr(s) in ms;
    assert forall n :: Large(n) ==> (LNum(n) in ls <==> LNum(n) in ms);
  }

  lemma {:induction false} RoundedPrintable(v: Json, number: int -> Json)
    requires Rounding(number) && Printable(v)
    ensures Printable(MapIntegers(v, number))
    decreases v, 0
  {
    hide FloatLiteral;
    if v.JInt? {
      NumberPrintable(v.n, number);
    } else if v.JArr? {
      RoundedItems(v.items, number);
    } else if v.JObj? {
      RoundedMembers(v.members, number);
    }
  }

  lemma NumberPrintable(n: int, number: int -> Json)
    requires Rounding(number)
    ensures Printable(number(n))
  {
    hide FloatLiteral;
    assert number(n).JInt? || number(n).JFloat? || number(n).JNull?;
  }

  lemma {:induction false} RoundedItems(items: seq<Json>, number: int -> Json)
    requires Rounding(number) && forall i :: 0 <= i < |items| ==> Printable(items[i])
    ensures forall i :: 0 <= i < |items| ==> Printable(MapItems(items, number)[i])
    decreases items, 1
  {
    hide Printable, MapIntegers, Rounding;
    if items != [] {
      RoundedPrintable(items[0], number);
      RoundedItems(items[1..], number);
      var r := MapItems(items, number);
      assert r[1..] == MapItems(items[1..], number);
      assert forall i :: 0 < i < |r| ==> r[i] == r[1..][i - 1];
    }
  }

  lemma {:induction false} RoundedMembers(members: seq<Member>, number: int -> Json)
    requires Rounding(number) && forall i :: 0 <= i < |members| ==> PrintableMember(members[i])
    ensures forall i :: 0 <= i < |members| ==> PrintableMember(MapMembers(members, number)[i])
    decreases members, 1
  {
    hide Printable, MapIntegers, Rounding;
    if members != [] {
      assert members decreases to members[0];
      assert members[0] decreases to members[0].value;
      assert PrintableMember(members[0]);
      RoundedPrintable(members[0].value, number);
      RoundedMembers(members[1..], number);
      var r := MapMembers(members, number);
      assert PrintableMember(r[0]);
      assert r[1..] == MapMembers(members[1..], number);
      assert forall i :: 0 < i < |r| ==> r[i] == r[1..][i - 1];
    }
  }

  /** And what has been said about the strings before one of them holds for both. */
  lemma SameFront(v: Json, number: int -> Json, k: nat)
    requires Rounding(number) && k < |LexemesOf(v)| && LexemesOf(v)[k].LStr? && NoClashBefore(v, k)
    ensures var u := MapIntegers(v, number);
            && k < |LexemesOf(u)| && LexemesOf(u)[k] == LexemesOf(v)[k]
            && KeyAt(LexemesOf(u), k) == KeyAt(LexemesOf(v), k)
            && NoClashBefore(u, k)
  {
    hide LexemesOf, MapIntegers, Rounding, Clashes, LargeIntegers;
    RoundedLexemes(v, number);
    SameClashes(v, number);
    var ls, ms := LexemesOf(v), LexemesOf(MapIntegers(v, number));
    assert forall i :: 0 <= i < |ls| ==> RoundedTo(ls[i], ms[i]) && (ms[i].LStr? ==> ms[i] == ls[i]);
  }

  // ----- The results -----

  /** When the first clashing string is a placeholder in use, the number takes its place. */
  lemma PlaceholderTaken(v: Json, number: int -> Json, k: nat, n: nat)
    requires Printable(v) && Rounding(number) && k < |LexemesOf(v)| && NoClashBefore(v, k)
    requires n in LargeIntegers(LexemesOf(v)) && LexemesOf(v)[k] == LStr(Placeholder(n))
    ensures var received := FromJson(Sent(v, number));
            received.Some? ==>
              && k < |LexemesOf(received.value)|
              && LexemesOf(received.value)[k] ==
                 (if KeyAt(LexemesOf(v), k) then LStr(BIGINT_MARKER + Decimal(n)) else LNum(n))
  {
    hide LexemesOf, Placeholder, LargeIntegers, FromJson, ToJson, MapIntegers, Rounding, Printable, NoClashBefore, KeyAt, Output, Decimal;
    var u := MapIntegers(v, number);
    RoundedPrintable(v, number);
    SameFront(v, number, k);
    SameClashes(v, number);
    GoodBefore(u, k);
    PlaceholderOutput(u, k, n);
    NumberForString(u, k, n);
  }

  lemma PlaceholderOutput(v: Json, k: nat, n: nat)
    requires k < |LexemesOf(v)| && n in LargeIntegers(LexemesOf(v)) && LexemesOf(v)[k] == LStr(Placeholder(n))
    ensures Output(v)[k] == Good(LNum(n))
  {
    hide LexemesOf, Placeholder, LargeIntegers;
    PlaceholderFolded(n, LargeIntegers(LexemesOf(v)));
  }

  /** When it ends with a quotation mark and a placeholder in use, nothing is received at all. */
  lemma BrokenStringIsFatal(v: Json, number: int -> Json, k: nat)
    requires Printable(v) && Rounding(number) && k < |LexemesOf(v)| && NoClashBefore(v, k) && LexemesOf(v)[k].LStr?
    requires forall n :: n in LargeIntegers(LexemesOf(v)) ==> LexemesOf(v)[k].s != Placeholder(n)
    requires exists n :: n in LargeIntegers(LexemesOf(v)) && EndsWith(LexemesOf(v)[k].s, "\"" + Placeholder(n))
    ensures FromJson(Sent(v, number)) == None
  {
    hide LexemesOf, Placeholder, LargeIntegers, ToJson, Output, EndsWith, Revive, Parse, Outside, MapIntegers, Rounding, Printable,
         NoClashBefore, KeyAt;
    var u := MapIntegers(v, number);
    RoundedPrintable(v, number);
    SameFront(v, number, k);
    SameClashes(v, number);
    GoodBefore(u, k);
    OutputPiece(u, k);
    var n :| n in LargeIntegers(LexemesOf(v)) && EndsWith(LexemesOf(v)[k].s, "\"" + Placeholder(n));
    assert Clashes(LexemesOf(u)[k].s, n);
    var p := Output(u)[k];
    StringBroken(u, k, p.s, p.n);
  }

  /**
   The round trip, exactly: parsing what was printed gives the value back if and only if no
   string or key clashes with the placeholder of an integer in it, no string value is
   marked, and no integer is changed by `Number`.
   */
  lemma JsonRoundTripIff(v: Json, number: int -> Json)
    requires Printable(v) && Rounding(number)
    ensures FromJson(Sent(v, number)) == Some(v) <==> NoClash(v) && NoMarker(v) && Kept(v, number)
  {
    hide LexemesOf, Outside, ToJson, Output, MapIntegers, MarkTree, Revive, Parse, LargeIntegers, Rounding, Printable, NoClash;
    var u := MapIntegers(v, number);
    RoundedPrintable(v, number);
    SameClashes(v, number);
    if NoClash(v) {
      WithoutClash(u);
      TreeRevived(v, number);
    } else {
      RoundedLexemes(v, number);
      var k := FirstClash(u);
      match Output(u)[k]
      case Broken(s, n) => StringBroken(u, k, s, n);
      case Good(l) =>
        var n :| n in LargeIntegers(LexemesOf(u)) && LexemesOf(u)[k].s == Placeholder(n) && l == LNum(n);
        NumberForString(u, k, n);
    }
  }
}
