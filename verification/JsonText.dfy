/**
 JSON text as packages/ws-client/src/json-utils.ts sees it: the tokens of a text, and the
 pass that rewrites large integer literals before `JSON.parse` runs.
 */
module JsonText {
  import opened Wrappers
  import opened Numerals
  import opened Sequences

  const BIGINT_MARKER := "__BIGINT__"
  const MAX_SAFE_INTEGER := 9007199254740991
  const MIN_SAFE_INTEGER := -9007199254740991

  predicate Safe(n: int) {
    MIN_SAFE_INTEGER <= n <= MAX_SAFE_INTEGER
  }

  // ----- Digits -----

  /** How many digits `s` starts with. */
  function DigitRun(s: string): (k: nat)
    ensures k <= |s| && AllDigits(s[..k])
  {
    if s == "" || !IsDigit(s[0]) then 0 else 1 + DigitRun(s[1..])
  }

  /** The cut-off loses nothing: a literal of fewer than 15 digits is a safe integer. */
  lemma ShortLiteralsAreSafe(minus: bool, digits: string)
    requires AllDigits(digits) && |digits| < 15
    ensures Safe(LiteralValue(minus, digits))
  {
    FewDigitsAreSmall(digits);
    Power10Grows(|digits|, 14);
    assert Power10(10) == 10000000000;
    assert Power10(14) == 100000000000000;
  }

  function LiteralValue(minus: bool, digits: string): int
    requires AllDigits(digits)
  {
    var n: int := DecimalValue(digits);
    if minus then -n else n
  }

  // ----- Tokens -----

  /** The pieces of a JSON text. `raw` is a string's content as written, with its escapes. */
  datatype Token =
    | Str(raw: string)
    | Num(minus: bool, digits: string, fraction: string, exponent: string)
    | Word(letters: string)
    | Punct(c: char)

  predicate IsLetter(c: char) {
    'a' <= c <= 'z'
  }

  predicate IsPunct(c: char) {
    c in ",:[]{} \t\n\r"
  }

  /** How long the content of a string is whose opening quote has been read; none without a closing quote. */
  function RawLength(s: string): (r: Option<nat>)
    ensures r.Some? ==> r.value < |s|
    decreases |s|
  {
    if s == "" then None
    else if s[0] == '"' then Some(0)
    else if s[0] == '\\' then
      if |s| < 2 then None
      else
        var rest := RawLength(s[2..]);
        if rest.None? then None else Some(2 + rest.value)
    else
      var rest := RawLength(s[1..]);
      if rest.None? then None else Some(1 + rest.value)
  }

  /** Content whose every backslash starts a pair and whose quotes are all escaped. */
  predicate ValidRaw(raw: string)
    decreases |raw|
  {
    raw == "" ||
    (if raw[0] == '\\' then |raw| >= 2 && ValidRaw(raw[2..]) else raw[0] != '"' && ValidRaw(raw[1..]))
  }

  predicate ValidFraction(s: string) {
    s == "" || (|s| > 1 && s[0] == '.' && AllDigits(s[1..]))
  }

  predicate ValidExponent(s: string) {
    s == "" ||
    (|s| > 1 && s[0] in "eE" && (AllDigits(s[1..]) || (|s| > 2 && s[1] in "+-" && AllDigits(s[2..]))))
  }

  predicate ValidToken(t: Token) {
    match t
    case Str(raw) => ValidRaw(raw)
    case Num(_, digits, fraction, exponent) =>
      digits != "" && AllDigits(digits) && ValidFraction(fraction) && ValidExponent(exponent)
    case Word(letters) => letters != "" && forall i :: 0 <= i < |letters| ==> IsLetter(letters[i])
    case Punct(c) => IsPunct(c)
  }

  function Sign(minus: bool): string {
    if minus then "-" else ""
  }

  function TokenText(t: Token): string {
    match t
    case Str(raw) => "\"" + raw + "\""
    case Num(minus, digits, fraction, exponent) => Sign(minus) + digits + fraction + exponent
    case Word(letters) => letters
    case Punct(c) => [c]
  }

  function Text(ts: seq<Token>): string {
    if ts == [] then "" else TokenText(ts[0]) + Text(ts[1..])
  }

  /** What may follow a token in the text: nothing that would make a number or a word longer. */
  predicate Stops(t: Token, next: string) {
    next == "" ||
    match t
    case Num(_, _, _, _) => !IsDigit(next[0]) && next[0] !in ".eE"
    case Word(_) => !IsLetter(next[0])
    case _ => true
  }

  /** `ts`, followed by `after`, is how that text splits into tokens. */
  predicate Splits(ts: seq<Token>, after: string) {
    ts == [] || (ValidToken(ts[0]) && Stops(ts[0], Text(ts[1..]) + after) && Splits(ts[1..], after))
  }

  // ----- The preprocessing pass -----

  function FractionLength(s: string): (k: nat)
    ensures k <= |s|
  {
    if s != "" && s[0] == '.' then 1 + DigitRun(s[1..]) else 0
  }

  function ExponentLength(s: string): (k: nat)
    ensures k <= |s|
  {
    if s == "" || s[0] !in "eE" then 0
    else if |s| > 1 && s[1] in "+-" then 2 + DigitRun(s[2..])
    else 1 + DigitRun(s[1..])
  }

  /** An integer literal, in quotes behind the marker when it has 15 digits or more and is unsafe. */
  function MarkLiteral(minus: bool, digits: string): string
    requires AllDigits(digits)
  {
    if |digits| >= 15 && !Safe(LiteralValue(minus, digits)) then "\"" + BIGINT_MARKER + Sign(minus) + digits + "\""
    else Sign(minus) + digits
  }

  /** The number at the front of `s`: its integer part, fraction and exponent. */
  function NumberLength(s: string): (n: nat)
    requires s != "" && IsDigit(s[0])
    ensures 0 < n <= |s|
  {
    var k := DigitRun(s);
    var f := FractionLength(s[k..]);
    k + f + ExponentLength(s[k + f..])
  }

  function NumberOutput(s: string, minus: bool): string
    requires s != "" && IsDigit(s[0])
  {
    var k := DigitRun(s);
    if NumberLength(s) == k then MarkLiteral(minus, s[..k]) else Sign(minus) + s[..NumberLength(s)]
  }

  /** What the pass makes of `s` outside a string; `minus` says that a minus sign was just read. */
  function Outside(s: string, minus: bool): string
    decreases |s|
  {
    if s == "" then Sign(minus)
    else if s[0] == '"' then Sign(minus) + "\"" + Inside(s[1..])
    else if IsDigit(s[0]) then NumberOutput(s, minus) + Outside(s[NumberLength(s)..], false)
    else if s[0] == '-' then Sign(minus) + Outside(s[1..], true)
    else Sign(minus) + [s[0]] + Outside(s[1..], false)
  }

  /** What the pass makes of `s` inside a string: a copy up to the closing quote. */
  function Inside(s: string): string
    decreases |s|
  {
    if s == "" then ""
    else if s[0] == '\\' then
      if |s| < 2 then s else s[..2] + Inside(s[2..])
    else if s[0] == '"' then "\"" + Outside(s[1..], false)
    else [s[0]] + Inside(s[1..])
  }

  /** The specification of the pass, token by token. */
  function Mark(t: Token): Token {
    match t
    case Num(minus, digits, fraction, exponent) =>
      if fraction == "" && exponent == "" && AllDigits(digits) && !Safe(LiteralValue(minus, digits)) then
        Str(BIGINT_MARKER + Sign(minus) + digits)
      else t
    case _ => t
  }

  function MarkAll(ts: seq<Token>): (r: seq<Token>)
    ensures |r| == |ts|
    ensures forall i :: 0 <= i < |ts| ==> r[i] == Mark(ts[i])
  {
    if ts == [] then [] else [Mark(ts[0])] + MarkAll(ts[1..])
  }

  // ----- The pass is exact -----

  lemma {:induction false} DigitRunOf(digits: string, next: string)
    requires AllDigits(digits) && (next == "" || !IsDigit(next[0]))
    ensures DigitRun(digits + next) == |digits|
  {
    if digits != "" {
      assert (digits + next)[1..] == digits[1..] + next;
      DigitRunOf(digits[1..], next);
    } else {
      assert digits + next == next;
    }
  }

  lemma {:induction false} InsideCopies(raw: string, next: string)
    requires ValidRaw(raw)
    ensures Inside(raw + next) == raw + Inside(next)
    decreases |raw|
  {
    hide Inside;
    var s := raw + next;
    if raw == "" {
      assert s == next;
    } else if raw[0] == '\\' {
      CopiesEscape(s);
      assert s[..2] == raw[..2] && s[2..] == raw[2..] + next;
      InsideCopies(raw[2..], next);
      Associate(raw[..2], raw[2..], Inside(next));
      assert raw == raw[..2] + raw[2..];
    } else {
      CopiesInString(s);
      assert s[1..] == raw[1..] + next;
      InsideCopies(raw[1..], next);
      Associate([raw[0]], raw[1..], Inside(next));
      assert raw == [raw[0]] + raw[1..];
    }
  }

  lemma FractionOf(fraction: string, next: string)
    requires ValidFraction(fraction) && (next == "" || !IsDigit(next[0]))
    requires fraction == "" ==> next == "" || next[0] != '.'
    ensures FractionLength(fraction + next) == |fraction|
  {
    if fraction == "" {
      assert fraction + next == next;
    } else {
      assert (fraction + next)[1..] == fraction[1..] + next;
      DigitRunOf(fraction[1..], next);
    }
  }

  lemma ExponentOf(exponent: string, next: string)
    requires ValidExponent(exponent) && (next == "" || (!IsDigit(next[0]) && next[0] !in "eE"))
    ensures ExponentLength(exponent + next) == |exponent|
  {
    var s := exponent + next;
    if exponent == "" {
      assert s == next;
    } else if |exponent| > 1 && exponent[1] in "+-" {
      assert s[2..] == exponent[2..] + next;
      DigitRunOf(exponent[2..], next);
    } else {
      assert s[1..] == exponent[1..] + next;
      DigitRunOf(exponent[1..], next);
    }
  }

  /** The parts of a number token are found again at the front of a text that stops it. */
  lemma NumberParts(t: Token, next: string)
    requires t.Num? && ValidToken(t) && Stops(t, next)
    ensures var number := t.digits + t.fraction + t.exponent;
            var s := number + next;
            && IsDigit(s[0]) && NumberLength(s) == |number| && DigitRun(s) == |t.digits|
            && s[..|t.digits|] == t.digits && s[..|number|] == number && s[|number|..] == next
            && FractionLength(s[|t.digits|..]) == |t.fraction|
  {
    hide DigitRun, FractionLength, ExponentLength, AllDigits;
    var number, k := t.digits + t.fraction + t.exponent, |t.digits|;
    var s, tail, last := number + next, t.fraction + t.exponent + next, t.exponent + next;
    ThreeParts(t.digits, t.fraction, t.exponent, next);
    assert last == "" || (!IsDigit(last[0]) && last[0] != '.');
    assert tail == "" || !IsDigit(tail[0]);
    DigitRunOf(t.digits, tail);
    FractionOf(t.fraction, last);
    ExponentOf(t.exponent, next);
    FirstDigit(t.digits);
  }

  lemma ThreeParts(a: string, b: string, c: string, next: string)
    ensures var s := a + b + c + next;
            && s == a + (b + c + next) && s[..|a|] == a && s[|a|..] == b + c + next
            && b + c + next == b + (c + next) && s[|a| + |b|..] == c + next
            && s[..|a + b + c|] == a + b + c && s[|a + b + c|..] == next
            && (a != "" ==> s[0] == a[0])
  {
  }

  lemma FirstDigit(digits: string)
    requires digits != "" && AllDigits(digits)
    ensures IsDigit(digits[0])
  {
  }

  lemma MarkLiteralIsMark(t: Token)
    requires t.Num? && ValidToken(t) && t.fraction == "" && t.exponent == ""
    ensures MarkLiteral(t.minus, t.digits) == TokenText(Mark(t))
  {
    if |t.digits| < 15 {
      ShortLiteralsAreSafe(t.minus, t.digits);
    }
  }

  lemma NumberOutputIsMark(t: Token, next: string)
    requires t.Num? && ValidToken(t) && Stops(t, next)
    ensures var s := t.digits + t.fraction + t.exponent + next;
            && IsDigit(s[0]) && s[NumberLength(s)..] == next
            && NumberOutput(s, t.minus) == TokenText(Mark(t))
  {
    hide DigitRun, NumberLength, MarkLiteral;
    NumberParts(t, next);
    if t.fraction == "" && t.exponent == "" {
      assert t.digits + t.fraction + t.exponent == t.digits;
      MarkLiteralIsMark(t);
    } else {
      assert Sign(t.minus) + (t.digits + t.fraction + t.exponent) == TokenText(t);
    }
  }

  // The four ways in which the pass takes a step outside a string.

  lemma CopiesOther(s: string)
    requires s != "" && s[0] != '"' && !IsDigit(s[0]) && s[0] != '-'
    ensures Outside(s, false) == [s[0]] + Outside(s[1..], false)
  {
    hide NumberLength, NumberOutput, Inside;
  }

  lemma TakesNumber(s: string, minus: bool)
    requires s != "" && IsDigit(s[0])
    ensures Outside(s, minus) == NumberOutput(s, minus) + Outside(s[NumberLength(s)..], false)
  {
    hide NumberLength, NumberOutput, Inside;
  }

  lemma EntersString(s: string)
    requires s != "" && s[0] == '"'
    ensures Outside(s, false) == "\"" + Inside(s[1..])
  {
    hide NumberLength, NumberOutput, Inside;
  }

  lemma CopiesInString(s: string)
    requires s != "" && s[0] != '\\' && s[0] != '"'
    ensures Inside(s) == [s[0]] + Inside(s[1..])
  {
    hide Outside;
  }

  lemma CopiesEscape(s: string)
    requires |s| >= 2 && s[0] == '\\'
    ensures Inside(s) == s[..2] + Inside(s[2..])
  {
    hide Outside;
  }

  lemma LeavesString(s: string)
    requires s != "" && s[0] == '"'
    ensures Inside(s) == "\"" + Outside(s[1..], false)
  {
    hide Outside;
  }

  lemma NumberPass(t: Token, next: string)
    requires t.Num? && ValidToken(t) && Stops(t, next)
    ensures Outside(TokenText(t) + next, false) == TokenText(Mark(t)) + Outside(next, false)
  {
    hide NumberLength, NumberOutput, Mark, Outside;
    var s := t.digits + t.fraction + t.exponent + next;
    NumberOutputIsMark(t, next);
    TakesNumber(s, t.minus);
    if t.minus {
      MinusPass(s);
      assert TokenText(t) + next == "-" + s;
    } else {
      assert TokenText(t) + next == s;
    }
  }

  lemma MinusPass(s: string)
    ensures Outside("-" + s, false) == Outside(s, true)
  {
    hide NumberLength, NumberOutput;
    assert ("-" + s)[1..] == s;
  }

  lemma StringPass(raw: string, next: string)
    requires ValidRaw(raw)
    ensures Outside("\"" + raw + "\"" + next, false) == "\"" + raw + "\"" + Outside(next, false)
  {
    hide Outside, Inside, ValidRaw;
    var s := "\"" + raw + "\"" + next;
    assert s[1..] == raw + ("\"" + next);
    EntersString(s);
    InsideCopies(raw, "\"" + next);
    LeavesString("\"" + next);
    assert ("\"" + next)[1..] == next;
  }

  lemma {:induction false} WordPass(letters: string, next: string)
    requires forall i :: 0 <= i < |letters| ==> IsLetter(letters[i])
    ensures Outside(letters + next, false) == letters + Outside(next, false)
  {
    hide Outside;
    if letters == "" {
      assert letters + next == next;
    } else {
      CopiesOther(letters + next);
      assert (letters + next)[1..] == letters[1..] + next;
      WordPass(letters[1..], next);
    }
  }

  lemma TokenPass(t: Token, next: string)
    requires ValidToken(t) && Stops(t, next)
    ensures Outside(TokenText(t) + next, false) == TokenText(Mark(t)) + Outside(next, false)
  {
    hide Outside;
    match t
    case Str(raw) => StringPass(raw, next);
    case Num(_, _, _, _) => NumberPass(t, next);
    case Word(letters) => WordPass(letters, next);
    case Punct(c) => PunctPass(c, next);
  }

  lemma PunctPass(c: char, next: string)
    requires IsPunct(c)
    ensures Outside([c] + next, false) == [c] + Outside(next, false)
  {
    hide Outside;
    CopiesOther([c] + next);
    assert ([c] + next)[1..] == next;
  }

  /**
   Exactness of the pass on every text that splits into tokens: strings, words,
   punctuation, white space and numbers with a fraction or an exponent are copied as they
   are, and of the integer literals exactly the unsafe ones become marked strings.
   */
  lemma {:induction false} PassIsExact(ts: seq<Token>, after: string)
    requires Splits(ts, after)
    ensures Outside(Text(ts) + after, false) == Text(MarkAll(ts)) + Outside(after, false)
  {
    hide Outside, Mark, TokenText, ValidToken, Stops;
    if ts == [] {
      assert Text(ts) + after == after;
    } else {
      assert Text(ts) + after == TokenText(ts[0]) + (Text(ts[1..]) + after);
      TokenPass(ts[0], Text(ts[1..]) + after);
      PassIsExact(ts[1..], after);
      assert MarkAll(ts)[1..] == MarkAll(ts[1..]);
    }
  }
}
