/** Python's numerals: `str(n)`, `hex(n)` and `int(text, base)` for bases 10 and 16. */
module Numerals {
  import opened Prelude

  predicate IsBase(base: nat) {
    base == 10 || base == 16
  }

  /** `[A-Za-z0-9]` */
  predicate IsAlnum(c: char) {
    'A' <= c <= 'Z' || 'a' <= c <= 'z' || '0' <= c <= '9'
  }

  /** `[A-Za-z0-9_]`, which is also the pattern `\w` on ASCII. */
  predicate IsWordChar(c: char) {
    IsAlnum(c) || c == '_'
  }

  /** The character classes by their codes. */
  lemma CharacterClasses(c: char)
    ensures IsAlnum(c) <==> 65 <= c as int <= 90 || 97 <= c as int <= 122 || 48 <= c as int <= 57
    ensures IsWordChar(c) <==> IsAlnum(c) || c as int == 95
    ensures IsSpace(c) <==> c as int in {9, 10, 11, 12, 13, 28, 29, 30, 31, 32}
  {
  }

  /** The ASCII white space of Python. */
  predicate IsSpace(c: char) {
    c == ' ' || 9 <= c as int <= 13 || 28 <= c as int <= 31
  }

  /** `text.strip()` */
  function Strip(text: string): string {
    if text == [] then []
    else if IsSpace(text[0]) then Strip(text[1..])
    else if IsSpace(text[|text| - 1]) then Strip(text[..|text| - 1])
    else text
  }

  function DigitChar(d: nat): char
    requires d < 16
  {
    if d < 10 then '0' + d as char else 'a' + (d - 10) as char
  }

  function DigitValue(c: char): Option<nat> {
    if '0' <= c <= '9' then Some(c as int - '0' as int)
    else if 'a' <= c <= 'f' then Some(c as int - 'a' as int + 10)
    else if 'A' <= c <= 'F' then Some(c as int - 'A' as int + 10)
    else None
  }

  predicate IsDigit(c: char, base: nat) {
    DigitValue(c).Some? && DigitValue(c).value < base
  }

  /** The digits of both bases by their codes, and their values. */
  lemma DigitClasses(c: char)
    ensures IsDigit(c, 10) <==> 48 <= c as int <= 57
    ensures IsDigit(c, 16) <==> 48 <= c as int <= 57 || 65 <= c as int <= 70 || 97 <= c as int <= 102
    ensures IsDigit(c, 16) ==>
              DigitValue(c).value == if c as int <= 57 then c as int - 48
                                     else if c as int <= 70 then c as int - 55 else c as int - 87
  {
  }

  /** The digits of `n`, most significant first, lower case and without leading zeros. */
  function Digits(n: nat, base: nat): string
    requires IsBase(base)
  {
    if n < base then [DigitChar(n)] else Digits(n / base, base) + [DigitChar(n % base)]
  }

  /** The value of a digit string; single underscores may separate digits. */
  function DigitsValue(text: string, base: nat): Option<nat>
    requires IsBase(base)
    decreases |text|
  {
    if text == [] || !IsDigit(text[|text| - 1], base) then None
    else
      var d := DigitValue(text[|text| - 1]).value;
      if |text| == 1 then Some(d)
      else
        var front := if text[|text| - 2] == '_' then text[..|text| - 2] else text[..|text| - 1];
        match DigitsValue(front, base)
        case None => None
        case Some(v) => Some(v * base + d)
  }

  /** `str(n)` */
  function Str(n: int): string {
    if n < 0 then "-" + Digits(-n, 10) else Digits(n, 10)
  }

  /** `hex(n)` */
  function HexStr(n: int): string {
    if n < 0 then "-0x" + Digits(-n, 16) else "0x" + Digits(n, 16)
  }

  function Unsigned(text: string, base: nat): Option<nat>
    requires IsBase(base)
  {
    if base == 16 && |text| >= 2 && text[0] == '0' && (text[1] == 'x' || text[1] == 'X')
    then DigitsValue(if |text| > 2 && text[2] == '_' then text[3..] else text[2..], base)
    else DigitsValue(text, base)
  }

  /** `int(text, base)`; `None` is a ValueError. */
  function ParseInt(text: string, base: nat): Option<int>
    requires IsBase(base)
  {
    var t := Strip(text);
    if t != [] && t[0] == '-' then
      match Unsigned(t[1..], base)
      case None => None
      case Some(v) => var n: int := v; Some(-n)
    else
      match Unsigned(if t != [] && t[0] == '+' then t[1..] else t, base)
      case None => None
      case Some(v) => Some(v)
  }

  lemma DigitRoundTrip(d: nat, base: nat)
    requires IsBase(base) && d < base
    ensures IsDigit(DigitChar(d), base) && DigitValue(DigitChar(d)) == Some(d)
  {
  }

  lemma {:induction false} DigitsAreDigits(n: nat, base: nat)
    requires IsBase(base)
    ensures Digits(n, base) != []
    ensures forall c :: c in Digits(n, base) ==> IsDigit(c, base)
  {
    if n >= base {
      DigitsAreDigits(n / base, base);
    }
  }

  lemma QuotientAndRest(n: nat, base: nat)
    requires IsBase(base)
    ensures n / base * base + n % base == n
  {
  }

  lemma {:induction false} DigitsValueAppend(front: string, last: char, base: nat, v: nat)
    requires IsBase(base) && front != [] && front[|front| - 1] != '_'
    requires DigitsValue(front, base) == Some(v) && IsDigit(last, base)
    ensures DigitsValue(front + [last], base) == Some(v * base + DigitValue(last).value)
  {
    assert (front + [last])[..|front|] == front;
  }

  lemma {:induction false} DigitsRoundTrip(n: nat, base: nat)
    requires IsBase(base)
    ensures DigitsValue(Digits(n, base), base) == Some(n)
  {
    if n < base {
      DigitRoundTrip(n, base);
    } else {
      var front := Digits(n / base, base);
      DigitsAreDigits(n / base, base);
      assert front[|front| - 1] in front;
      DigitRoundTrip(n % base, base);
      DigitsRoundTrip(n / base, base);
      DigitsValueAppend(front, DigitChar(n % base), base, n / base);
      QuotientAndRest(n, base);
    }
  }

  /** Printed digits are in lower case and have no leading zero. */
  lemma {:induction false} DigitsAreCanonical(n: nat, base: nat)
    requires IsBase(base)
    ensures forall c :: c in Digits(n, base) ==> '0' <= c <= '9' || (base == 16 && 'a' <= c <= 'f')
    ensures n > 0 ==> Digits(n, base)[0] != '0'
  {
    if n >= base {
      DigitsAreCanonical(n / base, base);
      DigitsAreDigits(n / base, base);
    }
  }

  /** `str` and `hex` print a sign only for negative numbers, and the prefix of base 16 after it. */
  lemma {:induction false} PrintedForms(n: nat)
    ensures Str(n) == Digits(n, 10) && HexStr(n) == "0x" + Digits(n, 16)
    ensures n > 0 ==> Str(0 - n) == "-" + Digits(n, 10) && HexStr(0 - n) == "-0x" + Digits(n, 16)
  {
  }

  /** A single underscore may separate digits. */
  lemma {:induction false} UnderscoreIgnored(front: string, last: char, base: nat)
    requires IsBase(base) && DigitsValue(front, base).Some? && IsDigit(last, base)
    ensures DigitsValue(front + "_" + [last], base) == DigitsValue(front + [last], base)
  {
    var t, u := front + "_" + [last], front + [last];
    assert t[..|t| - 2] == front && u[..|u| - 1] == front;
  }

  /** White space around a numeral and a plus sign before it do not matter. */
  lemma {:induction false} SpaceAndPlusIgnored(before: string, text: string, after: string, base: nat)
    requires IsBase(base) && AllSpace(before) && AllSpace(after)
    requires text != "" && !IsSpace(text[0]) && !IsSpace(text[|text| - 1])
    ensures ParseInt(before + text + after, base) == ParseInt(text, base)
    ensures text[0] != '+' && text[0] != '-' ==> ParseInt("+" + text, base) == ParseInt(text, base)
  {
    StripSurrounded(before, text, after);
    StripNothing(text);
    StripNothing("+" + text);
    assert ("+" + text)[1..] == text;
  }

  lemma {:induction false} UnsignedDigits(n: nat, base: nat)
    requires IsBase(base)
    ensures Unsigned(Digits(n, base), base) == Some(n)
  {
    DigitsRoundTrip(n, base);
    DigitsAreDigits(n, base);
    var t := Digits(n, base);
    assert |t| >= 2 ==> t[1] in t;
  }

  predicate AllSpace(text: string) {
    forall c :: c in text ==> IsSpace(c)
  }

  /** White space around a text is removed, whatever its amount, and nothing else. */
  lemma {:induction false} StripSurrounded(before: string, text: string, after: string)
    requires AllSpace(before) && AllSpace(after)
    requires text != "" && !IsSpace(text[0]) && !IsSpace(text[|text| - 1])
    ensures Strip(before + text + after) == text
    decreases |before| + |after|
  {
    var whole := before + text + after;
    if before != "" {
      assert before[0] in before && whole[0] == before[0];
      assert whole[1..] == before[1..] + text + after;
      StripSurrounded(before[1..], text, after);
    } else if after != "" {
      assert whole[0] == text[0] && after[|after| - 1] in after && whole[|whole| - 1] == after[|after| - 1];
      assert whole[..|whole| - 1] == before + text + after[..|after| - 1];
      StripSurrounded(before, text, after[..|after| - 1]);
    } else {
      assert whole == text;
    }
  }

  lemma SpaceBefore(text: string, before: string, middle: string, after: string)
    requires text != "" && text[1..] == before + middle + after
    ensures text == [text[0]] + before + middle + after
  {
  }

  lemma SpaceAfter(text: string, before: string, middle: string, after: string)
    requires text != "" && text[..|text| - 1] == before + middle + after
    ensures text == before + middle + (after + [text[|text| - 1]])
  {
  }

  /** Every text is a stripped text with white space around it. */
  lemma {:induction false} StripParts(text: string) returns (before: string, after: string)
    ensures AllSpace(before) && AllSpace(after) && text == before + Strip(text) + after
    ensures Strip(text) != "" ==> !IsSpace(Strip(text)[0]) && !IsSpace(Strip(text)[|Strip(text)| - 1])
  {
    before, after := "", "";
    if text != "" {
      if IsSpace(text[0]) {
        before, after := StripParts(text[1..]);
        SpaceBefore(text, before, Strip(text[1..]), after);
        before := [text[0]] + before;
      } else if IsSpace(text[|text| - 1]) {
        before, after := StripParts(text[..|text| - 1]);
        SpaceAfter(text, before, Strip(text[..|text| - 1]), after);
        after := after + [text[|text| - 1]];
      }
    }
  }

  lemma StripNothing(text: string)
    requires text == [] || (!IsSpace(text[0]) && !IsSpace(text[|text| - 1]))
    ensures Strip(text) == text
  {
  }

  /** `int(str(n)) == n` for every integer. */
  lemma {:induction false} StrRoundTrip(n: int)
    ensures ParseInt(Str(n), 10) == Some(n)
  {
    var m := if n < 0 then -n else n;
    var t := Digits(m, 10);
    DigitsAreDigits(m, 10);
    UnsignedDigits(m, 10);
    assert t[0] in t && t[|t| - 1] in t;
    StripNothing(Str(n));
    if n < 0 {
      assert Str(n)[1..] == t;
    }
  }

  lemma {:induction false} UnsignedHex(n: nat)
    ensures Unsigned("0x" + Digits(n, 16), 16) == Some(n)
  {
    var digits := Digits(n, 16);
    DigitsRoundTrip(n, 16);
    DigitsAreDigits(n, 16);
    assert digits[0] in digits;
    assert ("0x" + digits)[2..] == digits;
  }

  /** `int(hex(n), 16) == n` for every integer. */
  lemma {:induction false} HexRoundTrip(n: int)
    ensures ParseInt(HexStr(n), 16) == Some(n)
  {
    var m := if n < 0 then -n else n;
    var digits := Digits(m, 16);
    DigitsAreDigits(m, 16);
    assert digits[|digits| - 1] in digits;
    StripNothing(HexStr(n));
    UnsignedHex(m);
    if n < 0 {
      assert HexStr(n)[1..] == "0x" + digits;
    }
  }
}
