/**
 The two functions of json-utils.ts as they run: the loop over the replacements, and the
 loop over the characters with its `inString` flag and its list of output pieces.
 */
module JsonCodec {
  import opened Wrappers
  import opened Sequences
  import opened Numerals
  import opened JsonText
  import opened JsonParse
  import opened JsonIntegers
  import opened JsonBigInt
  import opened JsonExact

  /** `toBigIntAwareJson` without white space. */
  method ToBigIntAwareJson(v: Json, number: int -> Json) returns (result: string)
    ensures result == Sent(v, number)
  {
    var numbers := MapIntegers(v, number);
    var replacements := LargeIntegers(LexemesOf(numbers));
    result := Stringify(numbers);
    for i := 0 to |replacements|
      invariant ReplaceEach(result, replacements[i..]) == Sent(v, number)
    {
      var n := replacements[i];
      assert replacements[i..][0] == n && replacements[i..][1..] == replacements[i + 1..];
      result := ReplaceAll(result, Quoted(n), Decimal(n));
    }
  }

  function Concat(pieces: seq<string>): string {
    if pieces == [] then "" else Concat(pieces[..|pieces| - 1]) + pieces[|pieces| - 1]
  }

  lemma ConcatPush(pieces: seq<string>, piece: string)
    ensures Concat(pieces + [piece]) == Concat(pieces) + piece
  {
    assert (pieces + [piece])[..|pieces|] == pieces;
  }

  /** The three `while` loops over digits. */
  method SkipDigits(json: string, start: nat) returns (i: nat)
    requires start <= |json|
    ensures i == start + DigitRun(json[start..])
  {
    i := start;
    while i < |json| && IsDigit(json[i])
      invariant start <= i <= |json|
      invariant DigitRun(json[start..]) == i - start + DigitRun(json[i..])
    {
      assert json[i..][1..] == json[i + 1..];
      i := i + 1;
    }
  }

  /** What the pass still has to produce, given the pieces pushed so far. */
  function Remaining(rest: string, inString: bool, result: seq<string>): string {
    if inString then Concat(result) + Inside(rest)
    else if result != [] && result[|result| - 1] == "-" then Concat(result[..|result| - 1]) + Outside(rest, true)
    else Concat(result) + Outside(rest, false)
  }

  method SkipFraction(json: string, start: nat) returns (i: nat)
    requires start <= |json|
    ensures i == start + FractionLength(json[start..])
  {
    i := start;
    if i < |json| && json[i] == '.' {
      assert json[i..][1..] == json[i + 1..];
      i := SkipDigits(json, i + 1);
    }
  }

  method SkipExponent(json: string, start: nat) returns (i: nat)
    requires start <= |json|
    ensures i == start + ExponentLength(json[start..])
  {
    hide DigitRun;
    i := start;
    if i < |json| && (json[i] == 'e' || json[i] == 'E') {
      assert json[i..][1..] == json[i + 1..];
      if i + 1 < |json| && (json[i + 1] == '+' || json[i + 1] == '-') {
        assert json[i..][2..] == json[i + 2..];
        i := SkipDigits(json, i + 2);
      } else {
        i := SkipDigits(json, i + 1);
      }
    }
  }

  /** The number branch: the end of the number that starts at `start`, and whether it is a float. */
  method ScanNumber(json: string, start: nat) returns (i: nat, isFloat: bool)
    requires start < |json| && IsDigit(json[start])
    ensures i == start + NumberLength(json[start..])
    ensures isFloat <==> NumberLength(json[start..]) != DigitRun(json[start..])
  {
    hide DigitRun, FractionLength, ExponentLength;
    var digits := SkipDigits(json, start);
    assert json[start..][digits - start..] == json[digits..];
    var fraction := SkipFraction(json, digits);
    assert json[start..][fraction - start..] == json[fraction..];
    i := SkipExponent(json, fraction);
    isFloat := i != digits;
  }

  /** The preprocessing loop of `parseBigIntAwareJson`. */
  method MarkLargeIntegers(json: string) returns (processed: string)
    ensures processed == Outside(json, false)
  {
    hide Inside, Outside, NumberLength, NumberOutput, Concat, Remaining, DigitRun;
    var result: seq<string> := [];
    StartStep(json);
    var i, inString := 0, false;
    assert json[0..] == json;
    while i < |json|
      invariant i <= |json|
      invariant Remaining(json[i..], inString, result) == Outside(json, false)
    {
      var c := json[i];
      assert json[i..][1..] == json[i + 1..];
      if inString {
        if c == '\\' {
          if i + 1 < |json| {
            assert json[i..][..2] == [c] + [json[i + 1]] && json[i..][2..] == json[i + 2..];
            EscapeStep(json[i..], result);
            result := result + [[c]] + [[json[i + 1]]];
            i := i + 2;
          } else {
            EscapeStep(json[i..], result);
            assert json[i + 1..] == "";
            result := result + [[c]];
            i := i + 1;
          }
        } else if c == '"' {
          CopyStep(json[i..], inString, result);
          result := result + [[c]];
          inString := false;
          i := i + 1;
        } else {
          CopyStep(json[i..], inString, result);
          result := result + [[c]];
          i := i + 1;
        }
      } else if c == '"' {
        CopyStep(json[i..], inString, result);
        result := result + [[c]];
        inString := true;
        i := i + 1;
      } else if IsDigit(c) {
        NumberStep(json[i..], result);
        var hasMinus := |result| > 0 && result[|result| - 1] == "-";
        if hasMinus {
          result := result[..|result| - 1];
        }
        var start := i;
        var isFloat;
        i, isFloat := ScanNumber(json, start);
        assert json[start..][..i - start] == json[start..i] && json[start..][i - start..] == json[i..];
        NumberPiece(json[start..], hasMinus);
        var numberStr := Sign(hasMinus) + json[start..i];
        assert "\"" + BIGINT_MARKER + numberStr + "\"" ==
               "\"" + BIGINT_MARKER + Sign(hasMinus) + json[start..i] + "\"";
        if !isFloat && |numberStr| - (if hasMinus then 1 else 0) >= 15 {
          var num := LiteralValue(hasMinus, json[start..i]);
          if num > MAX_SAFE_INTEGER || num < MIN_SAFE_INTEGER {
            result := result + ["\"" + BIGINT_MARKER + numberStr + "\""];
          } else {
            result := result + [numberStr];
          }
        } else {
          result := result + [numberStr];
        }
      } else {
        CopyStep(json[i..], inString, result);
        result := result + [[c]];
        i := i + 1;
      }
    }
    processed := Concat(result);
    assert json[i..] == "";
    EndStep(inString, result);
  }

  lemma StartStep(json: string)
    ensures Remaining(json, false, []) == Outside(json, false)
  {
    assert Concat([]) + Outside(json, false) == Outside(json, false);
  }

  lemma EndStep(inString: bool, result: seq<string>)
    ensures Remaining("", inString, result) == Concat(result)
  {
  }

  // ----- One branch of the pass at a time -----

  lemma InsideEscape(s: string)
    requires s != "" && s[0] == '\\'
    ensures Inside(s) == if |s| < 2 then s else s[..2] + Inside(s[2..])
  {
    hide Outside;
  }

  lemma InsideCopy(s: string)
    requires s != "" && s[0] != '\\'
    ensures Inside(s) == [s[0]] + if s[0] == '"' then Outside(s[1..], false) else Inside(s[1..])
  {
    hide Outside;
  }

  lemma OutsideCopy(s: string, minus: bool)
    requires s != "" && !IsDigit(s[0])
    ensures Outside(s, minus) ==
            Sign(minus) + if s[0] == '"' then "\"" + Inside(s[1..])
                          else if s[0] == '-' then Outside(s[1..], true)
                          else [s[0]] + Outside(s[1..], false)
  {
    hide Inside;
  }

  lemma OutsideNumber(s: string, minus: bool)
    requires s != "" && IsDigit(s[0])
    ensures Outside(s, minus) == NumberOutput(s, minus) + Outside(s[NumberLength(s)..], false)
  {
    hide Inside, NumberLength, NumberOutput;
  }

  /** What `Remaining` says right after a piece was pushed. */
  lemma Pushed(result: seq<string>, piece: string, rest: string)
    ensures var all := result + [piece];
            && Remaining(rest, true, all) == Concat(result) + piece + Inside(rest)
            && (piece != "-" ==> Remaining(rest, false, all) == Concat(result) + piece + Outside(rest, false))
            && (piece == "-" ==> Remaining(rest, false, all) == Concat(result) + Outside(rest, true))
  {
    hide Inside, Outside;
    ConcatPush(result, piece);
    assert (result + [piece])[..|result|] == result;
  }

  /** `Remaining` outside a string, with the pushed minus sign, if any, told apart. */
  lemma Split(result: seq<string>, rest: string)
    ensures var minus := result != [] && result[|result| - 1] == "-";
            var front := if minus then result[..|result| - 1] else result;
            && Remaining(rest, false, result) == Concat(front) + Outside(rest, minus)
            && Concat(result) == Concat(front) + Sign(minus)
  {
    hide Inside, Outside;
    if result != [] && result[|result| - 1] == "-" {
      assert result == result[..|result| - 1] + ["-"];
      ConcatPush(result[..|result| - 1], "-");
    }
  }

  lemma EscapeStep(rest: string, result: seq<string>)
    requires rest != "" && rest[0] == '\\'
    ensures if |rest| < 2 then Remaining(rest, true, result) == Remaining("", true, result + [[rest[0]]])
            else Remaining(rest, true, result) == Remaining(rest[2..], true, result + [[rest[0]]] + [[rest[1]]])
  {
    hide Inside, Outside, Concat;
    InsideEscape(rest);
    if |rest| < 2 {
      Pushed(result, [rest[0]], "");
      EndOfString();
      assert rest == [rest[0]] && rest + "" == rest;
    } else {
      Pushed(result + [[rest[0]]], [rest[1]], rest[2..]);
      ConcatPush(result, [rest[0]]);
      assert rest[..2] == [rest[0]] + [rest[1]];
      Associate(Concat(result), [rest[0]], [rest[1]]);
      Associate(Concat(result), rest[..2], Inside(rest[2..]));
    }
  }

  lemma EndOfString()
    ensures Inside("") == ""
  {
  }

  /** Every character that is copied on its own. */
  lemma CopyStep(rest: string, inString: bool, result: seq<string>)
    requires rest != "" && (if inString then rest[0] != '\\' else !IsDigit(rest[0]))
    ensures Remaining(rest, inString, result) ==
            Remaining(rest[1..], if rest[0] == '"' then !inString else inString, result + [[rest[0]]])
  {
    hide Inside, Outside, Concat;
    Pushed(result, [rest[0]], rest[1..]);
    if inString {
      InsideCopy(rest);
      Associate(Concat(result), [rest[0]], if rest[0] == '"' then Outside(rest[1..], false) else Inside(rest[1..]));
      DashInString(rest, result);
    } else {
      CopyOutside(rest, result);
    }
  }

  lemma DashInString(rest: string, result: seq<string>)
    requires rest != "" && rest[0] != '\\'
    ensures rest[0] == '"' ==> Remaining(rest[1..], false, result + [[rest[0]]]) ==
                               Concat(result) + [rest[0]] + Outside(rest[1..], false)
  {
    hide Inside, Outside, Concat;
    Pushed(result, [rest[0]], rest[1..]);
  }

  lemma CopyOutside(rest: string, result: seq<string>)
    requires rest != "" && !IsDigit(rest[0])
    ensures Remaining(rest, false, result) == Remaining(rest[1..], rest[0] == '"', result + [[rest[0]]])
  {
    hide Inside, Outside, Concat;
    var minus := result != [] && result[|result| - 1] == "-";
    var front := if minus then result[..|result| - 1] else result;
    Split(result, rest);
    OutsideCopy(rest, minus);
    Pushed(result, [rest[0]], rest[1..]);
    if rest[0] == '"' {
      Associate(Concat(front), Sign(minus), "\"" + Inside(rest[1..]));
      Associate(Concat(front) + Sign(minus), "\"", Inside(rest[1..]));
    } else if rest[0] == '-' {
      Associate(Concat(front), Sign(minus), Outside(rest[1..], true));
      assert [rest[0]] == "-";
    } else {
      Associate(Concat(front), Sign(minus), [rest[0]] + Outside(rest[1..], false));
      Associate(Concat(front) + Sign(minus), [rest[0]], Outside(rest[1..], false));
      assert [rest[0]] != "-";
    }
  }

  /** A number: the sign pushed before it, if any, is taken back and becomes part of it. */
  lemma NumberStep(rest: string, result: seq<string>)
    requires rest != "" && IsDigit(rest[0])
    ensures var minus := result != [] && result[|result| - 1] == "-";
            var front := if minus then result[..|result| - 1] else result;
            Remaining(rest, false, result) ==
            Remaining(rest[NumberLength(rest)..], false, front + [NumberOutput(rest, minus)])
  {
    hide Inside, Outside, Concat, NumberLength, NumberOutput;
    var minus := result != [] && result[|result| - 1] == "-";
    var front, out := if minus then result[..|result| - 1] else result, NumberOutput(rest, minus);
    Split(result, rest);
    OutsideNumber(rest, minus);
    NotADash(rest, minus);
    Pushed(front, out, rest[NumberLength(rest)..]);
    Associate(Concat(front), out, Outside(rest[NumberLength(rest)..], false));
  }

  lemma NotADash(rest: string, minus: bool)
    requires rest != "" && IsDigit(rest[0])
    ensures NumberOutput(rest, minus) != "-"
  {
    hide NumberOutput, NumberLength, DigitRun;
    NumberPiece(rest, minus);
    var literal := rest[..NumberLength(rest)];
    assert literal[0] == rest[0];
    assert !minus ==> (Sign(minus) + literal)[0] == rest[0];
  }

  lemma NumberPiece(rest: string, minus: bool)
    requires rest != "" && IsDigit(rest[0])
    ensures var n, k := NumberLength(rest), DigitRun(rest);
            && (n != k ==> NumberOutput(rest, minus) == Sign(minus) + rest[..n])
            && (n == k ==> AllDigits(rest[..n]) && NumberOutput(rest, minus) == MarkLiteral(minus, rest[..n]))
  {
    hide FractionLength, ExponentLength;
  }

  /** `parseBigIntAwareJson`: none where it throws. */
  method ParseBigIntAwareJson(json: string) returns (v: Option<Json>)
    ensures v == FromJson(json)
  {
    var processed := MarkLargeIntegers(json);
    var parsed := Parse(processed);
    v := if parsed.None? then None else Revive(parsed.value);
  }

  /** A value sent by one side and received by the other. */
  method SendAndReceive(v: Json, number: int -> Json) returns (received: Option<Json>)
    requires Printable(v) && Rounding(number)
    ensures received == Some(v) <==> NoClash(v) && NoMarker(v) && Kept(v, number)
  {
    var text := ToBigIntAwareJson(v, number);
    received := ParseBigIntAwareJson(text);
    JsonRoundTripIff(v, number);
  }
}
