/**
 The constants and the characters of json-utils.ts in plain terms: the marker, the safe
 range, the placeholders, and the escapes that `JSON.stringify` writes and `JSON.parse` reads.
 */
module JsonPlain {
  import opened Wrappers
  import opened Numerals
  import opened JsonText
  import opened JsonParse
  import opened JsonBigInt

  /** 2^53 - 1 is the last safe integer, and marked strings start with `__BIGINT__`. */
  lemma Constants(n: int, s: string)
    ensures Safe(n) <==> -0x1F_FFFF_FFFF_FFFF <= n <= 0x1F_FFFF_FFFF_FFFF
    ensures Large(n) <==> n > 0x1F_FFFF_FFFF_FFFF
    ensures HasMarker(s) <==> |s| >= 10 && s[..10] == "__BIGINT__"
  {
  }

  /** The number a text of lower-case hexadecimal digits stands for, the last digit first. */
  function HexNumber(s: string): nat
    requires forall i :: 0 <= i < |s| ==> s[i] in "0123456789abcdef"
  {
    if s == "" then 0
    else
      var c := s[|s| - 1];
      16 * HexNumber(s[..|s| - 1]) + if c <= '9' then (c - '0') as int else 10 + (c - 'a') as int
  }

  lemma DigitStandsFor(d: int)
    requires 0 <= d < 16
    ensures var c := HexDigit(d);
            && c in "0123456789abcdef" && (c == '0' ==> d == 0)
            && d == if c <= '9' then (c - '0') as int else 10 + (c - 'a') as int
  {
  }

  lemma {:induction false} HexReadsBack(n: nat)
    ensures var h := Hex(n);
            && h != "" && (forall i :: 0 <= i < |h| ==> h[i] in "0123456789abcdef")
            && HexNumber(h) == n && (h[0] == '0' ==> n == 0)
  {
    hide HexDigit;
    var h, d := Hex(n), HexDigit(n % 16);
    DigitStandsFor(n % 16);
    if n < 16 {
      assert h == [d] && h[..0] == "";
    } else {
      HexReadsBack(n / 16);
      var front := Hex(n / 16);
      assert h == front + [d];
      LastDigit(front, d);
    }
  }

  lemma LastDigit(front: string, d: char)
    requires forall i :: 0 <= i < |front| ==> front[i] in "0123456789abcdef"
    requires d in "0123456789abcdef"
    ensures forall i :: 0 <= i < |front + [d]| ==> (front + [d])[i] in "0123456789abcdef"
    ensures HexNumber(front + [d]) == 16 * HexNumber(front) + if d <= '9' then (d - '0') as int else 10 + (d - 'a') as int
  {
    assert (front + [d])[..|front|] == front;
  }

  /** A placeholder is `0x` and the integer in hexadecimal, in lower case and without leading zeros. */
  lemma PlaceholderInDigits(n: nat)
    ensures var p := Placeholder(n);
            && |p| > 2 && p[..2] == "0x" && (p[2] == '0' ==> n == 0)
            && (forall i :: 2 <= i < |p| ==> p[i] in "0123456789abcdef")
            && HexNumber(p[2..]) == n
  {
    HexReadsBack(n);
    assert Placeholder(n)[2..] == Hex(n);
    assert forall i :: 2 <= i < |Placeholder(n)| ==> Placeholder(n)[i] == Hex(n)[i - 2];
  }

  /** Five controls have letters, other controls four digits, and everything but `"` and `\` stands for itself. */
  lemma EscapesWritten(c: char)
    ensures Escape(0x08 as char) == "\\b" && Escape(0x09 as char) == "\\t" && Escape(0x0A as char) == "\\n"
    ensures Escape(0x0C as char) == "\\f" && Escape(0x0D as char) == "\\r"
    ensures Escape(0x22 as char) == "\\\"" && Escape(0x5C as char) == "\\\\"
    ensures c as int < 0x10 && c as int !in {0x08, 0x09, 0x0A, 0x0C, 0x0D} ==>
              Escape(c) == "\\u000" + ["0123456789abcdef"[c as int]]
    ensures 0x10 <= c as int < 0x20 ==> Escape(c) == "\\u001" + ["0123456789abcdef"[c as int - 0x10]]
    ensures c as int >= 0x20 && c as int != 0x22 && c as int != 0x5C ==> Escape(c) == [c]
  {
    if c as int < 0x10 {
      assert c as int / 16 == 0 && c as int % 16 == c as int;
    } else if c as int < 0x20 {
      assert c as int / 16 == 1 && c as int % 16 == c as int - 0x10;
    }
  }

  /** Digits of both cases are read. */
  lemma HexDigitsRead(d: int)
    requires 0 <= d < 16
    ensures HexValue("0123456789abcdef"[d]) == d && HexValue("0123456789ABCDEF"[d]) == d
  {
  }

  /** A unit outside the surrogate range, by the values of its four digits. */
  lemma CodeRead(a: char, b: char, c: char, d: char, rest: string)
    requires HexValue(a) >= 0 && HexValue(b) >= 0 && HexValue(c) >= 0 && HexValue(d) >= 0
    ensures var code := 0x1000 * HexValue(a) + 0x100 * HexValue(b) + 0x10 * HexValue(c) + HexValue(d);
            UnescapeFirst("\\u" + [a, b, c, d] + rest) ==
            if 0xD800 <= code < 0xE000 then None else Some((code as char, 6))
  {
    var raw := "\\u" + [a, b, c, d] + rest;
    assert raw[0] == '\\' && raw[1] == 'u' && raw[2] == a && raw[3] == b && raw[4] == c && raw[5] == d;
    assert HexValue(a) < 16 && HexValue(b) < 16 && HexValue(c) < 16 && HexValue(d) < 16;
    assert forall i :: 2 <= i < 6 ==> HexValue(raw[i]) >= 0;
    hide HexValue;
  }

  /** The other escapes, and what is none: any other letter, and a control character as it is. */
  lemma LettersRead(c: char, rest: string)
    ensures UnescapeFirst("\\" + [c] + rest) ==
            if c in "\"\\/" then Some((c, 2))
            else if c == 'b' then Some((0x08 as char, 2)) else if c == 't' then Some((0x09 as char, 2))
            else if c == 'n' then Some((0x0A as char, 2)) else if c == 'f' then Some((0x0C as char, 2))
            else if c == 'r' then Some((0x0D as char, 2))
            else if c == 'u' then UnescapeFirst("\\u" + rest) else None
    ensures c != '\\' ==> UnescapeFirst([c] + rest) == if c as int < 0x20 then None else Some((c, 1))
  {
    var raw := "\\" + [c] + rest;
    assert raw[0] == '\\' && raw[1] == c;
    assert c == 'u' ==> raw == "\\u" + rest;
    assert ([c] + rest)[0] == c;
  }
}
