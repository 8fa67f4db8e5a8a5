/** Replacing the integers of a JSON value, and what that does to its lexemes. */
module JsonIntegers {
  import opened JsonParse

  /** The value with `f(n)` in the place of every integer `n`. */
  function MapIntegers(v: Json, f: int -> Json): Json
    decreases v, 0
  {
    match v
    case JInt(n) => f(n)
    case JArr(items) => JArr(MapItems(items, f))
    case JObj(members) => JObj(MapMembers(members, f))
    case _ => v
  }

  function MapItems(items: seq<Json>, f: int -> Json): (r: seq<Json>)
    ensures |r| == |items|
    decreases items, 1
  {
    if items == [] then [] else [MapIntegers(items[0], f)] + MapItems(items[1..], f)
  }

  function MapMembers(members: seq<Member>, f: int -> Json): (r: seq<Member>)
    ensures |r| == |members|
    decreases members, 1
  {
    if members == [] then []
    else
      assert members decreases to members[0];
      assert members[0] decreases to members[0].value;
      [Member(members[0].key, MapIntegers(members[0].value, f))] + MapMembers(members[1..], f)
  }

  /** `f` gives no arrays and no objects. */
  ghost predicate Flat(f: int -> Json) {
    forall n :: !f(n).JArr? && !f(n).JObj?
  }

  function MapLexeme(l: Lexeme, f: int -> Json): Lexeme {
    if l.LNum? then LexemesOf(f(l.n))[0] else l
  }

  function MapLexemes(ls: seq<Lexeme>, f: int -> Json): (r: seq<Lexeme>)
    ensures |r| == |ls| && forall i :: 0 <= i < |ls| ==> r[i] == MapLexeme(ls[i], f)
  {
    if ls == [] then [] else [MapLexeme(ls[0], f)] + MapLexemes(ls[1..], f)
  }

  lemma MapConcat(a: seq<Lexeme>, b: seq<Lexeme>, f: int -> Json)
    ensures MapLexemes(a + b, f) == MapLexemes(a, f) + MapLexemes(b, f)
  {
    hide MapLexeme;
  }

  /** The lexemes are mapped one by one. */
  lemma {:induction false} MappedLexemes(v: Json, f: int -> Json)
    requires Flat(f)
    ensures LexemesOf(MapIntegers(v, f)) == MapLexemes(LexemesOf(v), f)
    decreases v, 0
  {
    if v.JArr? && v.items != [] {
      MappedItemLexemes(v.items, f);
      MapConcat([LPunct('[')], ItemLexemes(v.items), f);
    } else if v.JObj? && v.members != [] {
      MappedMemberLexemes(v.members, f);
      MapConcat([LPunct('{')], MemberLexemes(v.members), f);
    }
  }

  lemma {:induction false} MappedItemLexemes(items: seq<Json>, f: int -> Json)
    requires Flat(f) && items != []
    ensures ItemLexemes(MapItems(items, f)) == MapLexemes(ItemLexemes(items), f)
    decreases items, 1
  {
    hide LexemesOf, MapIntegers;
    MappedLexemes(items[0], f);
    var mapped := MapItems(items, f);
    assert mapped[1..] == MapItems(items[1..], f);
    if |items| == 1 {
      MapConcat(LexemesOf(items[0]), [LPunct(']')], f);
    } else {
      MappedItemLexemes(items[1..], f);
      MapConcat([LPunct(',')], ItemLexemes(items[1..]), f);
      MapConcat(LexemesOf(items[0]), [LPunct(',')] + ItemLexemes(items[1..]), f);
    }
  }

  lemma {:induction false} MappedMemberLexemes(members: seq<Member>, f: int -> Json)
    requires Flat(f) && members != []
    ensures MemberLexemes(MapMembers(members, f)) == MapLexemes(MemberLexemes(members), f)
    decreases members, 1
  {
    hide LexemesOf, MapIntegers, MapLexemes;
    assert members decreases to members[0];
    assert members[0] decreases to members[0].value;
    var value, mapped := members[0].value, MapMembers(members, f);
    MappedLexemes(value, f);
    assert mapped[1..] == MapMembers(members[1..], f);
    MapConcat([LStr(members[0].key), LPunct(':')], LexemesOf(value), f);
    MappedHead(members[0].key, f);
    var head := [LStr(members[0].key), LPunct(':')] + LexemesOf(value);
    if |members| == 1 {
      MapConcat(head, [LPunct('}')], f);
      MappedPunct('}', f);
    } else {
      MappedMemberLexemes(members[1..], f);
      MapConcat([LPunct(',')], MemberLexemes(members[1..]), f);
      MappedPunct(',', f);
      MapConcat(head, [LPunct(',')] + MemberLexemes(members[1..]), f);
    }
  }

  lemma MappedPunct(c: char, f: int -> Json)
    ensures MapLexemes([LPunct(c)], f) == [LPunct(c)]
  {
  }

  lemma MappedHead(key: string, f: int -> Json)
    ensures MapLexemes([LStr(key), LPunct(':')], f) == [LStr(key), LPunct(':')]
  {
  }
}
