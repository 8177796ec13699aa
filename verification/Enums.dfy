/** Numbering, reading, validation and masks of the enumerators of the specification. */
module Enums {
  import opened Prelude
  import opened Numerals

  const VALUE_LIMIT := 0x7FFF_FFFF

  /** A value as written: a macro `$X_BIT(arg)`, a version macro, or any other text. */
  datatype EtorText = Plain(text: string) | Bit(arg: string) | Ver(major: nat, minor: nat)

  /** `0x\w+` matches at the start of the text. */
  predicate IsHexText(text: string) {
    |text| >= 3 && text[0] == '0' && text[1] == 'x' && IsWordChar(text[2])
  }

  predicate IsHex(value: Option<EtorText>) {
    value.Some? && value.value.Plain? && IsHexText(value.value.text)
  }

  function Pow2(n: nat): nat {
    if n == 0 then 1 else 2 * Pow2(n - 1)
  }

  /** The argument of a BIT macro, or 0 where there is no number. */
  function BitCount(value: EtorText): int {
    match value
    case Bit(arg) => if ParseInt(arg, 10).Some? then ParseInt(arg, 10).value else 0
    case Plain(text) => if ParseInt(text, 10).Some? then ParseInt(text, 10).value else 0
    case Ver(_, _) => 0
  }

  /** The numeric meaning of a value; `None` is an exception. */
  function EtorValue(value: Option<EtorText>, prev: int): Option<int> {
    match value
    case None => Some(prev + 1)
    case Some(Ver(major, minor)) => Some(major * 0x1_0000 + minor)
    case Some(Bit(arg)) =>
      if BitCount(Bit(arg)) < 0 then None else Some(Pow2(BitCount(Bit(arg))))
    case Some(Plain(text)) =>
      if text == "" then Some(prev + 1)
      else if IsHexText(text) then ParseInt(text, 16)
      else ParseInt(text, 10)
  }

  /** A version macro is the number with the major version in the upper and the minor in the lower half. */
  lemma {:induction false} VersionMacroValue(major: nat, minor: nat, prev: int)
    requires minor < 65536
    ensures var v := EtorValue(Some(Ver(major, minor)), prev);
            v.Some? && v.value / 65536 == major && v.value % 65536 == minor
  {
  }

  // ---------------------------------------------------------------- filling in the values

  datatype Numbering = Numbering(useHex: bool, next: int)

  /** The text an enumerator ends up with. */
  function Filled(st: Numbering, value: Option<EtorText>): EtorText {
    if value.Some? then value.value
    else if st.useHex then Plain(HexStr(st.next))
    else Plain(Str(st.next))
  }

  /** One pass of the loop for an enum that is not a flags enum; `None` is a ValueError. */
  function NumberStep(st: Numbering, value: Option<EtorText>): Option<Numbering> {
    var useHex := st.useHex || IsHex(value);
    var filled := Filled(Numbering(useHex, st.next), value);
    if !useHex && filled.Ver? then Some(Numbering(useHex, st.next))
    else if !filled.Plain? then None
    else
      match ParseInt(filled.text, if useHex then 16 else 10)
      case None => None
      case Some(v) => Some(Numbering(useHex, v + 1))
  }

  function Number(st: Numbering, values: seq<Option<EtorText>>): Option<seq<EtorText>>
    decreases |values|
  {
    if values == [] then Some([])
    else
      match NumberStep(st, values[0])
      case None => None
      case Some(next) =>
        Then([Filled(Numbering(next.useHex, st.next), values[0])], Number(next, values[1..]))
  }

  method Preprocess(values: seq<Option<EtorText>>) returns (r: Option<seq<EtorText>>)
    ensures r == Number(Numbering(false, 0), values)
  {
    var useHex, next := false, 0;
    var filled: seq<EtorText> := [];
    ghost var whole := Number(Numbering(false, 0), values);
    ThenNothing([], whole);
    assert values[0..] == values;
    for i := 0 to |values|
      invariant whole == Then(filled, Number(Numbering(useHex, next), values[i..]))
    {
      var value := values[i];
      assert values[i..][1..] == values[i + 1..];
      useHex := useHex || IsHex(value);
      var text := Filled(Numbering(useHex, next), value);
      if useHex || !text.Ver? {
        if !text.Plain? {
          return None;
        }
        var v := ParseInt(text.text, if useHex then 16 else 10);
        if v.None? {
          return None;
        }
        next := v.value + 1;
      }
      ThenAppend(filled, text, Number(Numbering(useHex, next), values[i + 1..]));
      filled := filled + [text];
    }
    ThenNothing(filled, None);
    r := Some(filled);
  }

  /** The outcome of a pass that has already produced `done`. */
  function Then(done: seq<EtorText>, rest: Option<seq<EtorText>>): Option<seq<EtorText>> {
    match rest
    case None => None
    case Some(texts) => Some(done + texts)
  }

  lemma {:induction false} ThenNothing(done: seq<EtorText>, rest: Option<seq<EtorText>>)
    ensures Then([], rest) == rest && Then(done, Some([])) == Some(done)
  {
    assert rest.Some? ==> [] + rest.value == rest.value;
    assert done + [] == done;
  }

  lemma {:induction false} ThenAppend(done: seq<EtorText>, text: EtorText, rest: Option<seq<EtorText>>)
    ensures Then(done + [text], rest) == Then(done, Then([text], rest))
  {
    if rest.Some? {
      assert done + [text] + rest.value == done + ([text] + rest.value);
    }
  }

  // ---------------------------------------------------------------- numerals

  predicate IsDecimal(text: string) {
    ParseInt(text, 10).Some?
  }

  predicate IsHexNumeral(text: string) {
    IsHexText(text) && ParseInt(text, 16).Some?
  }

  /** No value, or a decimal or hexadecimal numeral that is also a constant of C. */
  predicate IsNumeral(value: Option<EtorText>) {
    value.Some? ==>
      && value.value.Plain?
      && (IsDecimal(value.value.text) || IsHexNumeral(value.value.text))
      && CConstant(value.value.text).Some?
  }

  // ---------------------------------------------------------------- constants of C

  function OctalValue(text: string): Option<nat> {
    if text == [] || !('0' <= text[|text| - 1] <= '7') then None
    else
      var d: nat := text[|text| - 1] as int - '0' as int;
      if |text| == 1 then Some(d)
      else
        match OctalValue(text[..|text| - 1])
        case None => None
        case Some(v) => Some(8 * v + d)
  }

  /** One more octal digit. */
  lemma {:induction false} OctalAppend(text: string, d: nat)
    requires d < 8 && OctalValue(text).Some?
    ensures OctalValue(text + [('0' as int + d) as char]) == Some(8 * OctalValue(text).value + d)
    ensures OctalValue([('0' as int + d) as char]) == Some(d)
  {
    assert (text + [('0' as int + d) as char])[..|text|] == text;
  }

  /** A leading zero makes a constant octal; there are no underscores. */
  function CUnsigned(text: string): Option<nat> {
    if '_' in text then None
    else if |text| >= 2 && text[0] == '0' && (text[1] == 'x' || text[1] == 'X') then DigitsValue(text[2..], 16)
    else if |text| >= 2 && text[0] == '0' then OctalValue(text)
    else DigitsValue(text, 10)
  }

  predicate IsSigned(text: string) {
    text != [] && (text[0] == '-' || text[0] == '+')
  }

  /** The text without white space and sign. */
  function Magnitude(text: string): string {
    var t := Strip(text);
    if IsSigned(t) then t[1..] else t
  }

  /** What C makes of the text, a constant with an optional sign. */
  function CConstant(text: string): Option<int> {
    match CUnsigned(Magnitude(text))
    case None => None
    case Some(v) => var n: int := v; Some(if Strip(text) != [] && Strip(text)[0] == '-' then -n else n)
  }

  /** A numeral that C takes to be octal is below eight, where both readings agree. */
  predicate NoOctalSurprise(text: string) {
    var u := Magnitude(text);
    |u| >= 2 && u[0] == '0' && IsDecimal(text) ==> -8 < ParseInt(text, 10).value < 8
  }

  /** The octal and the decimal value of the same digits. */
  lemma {:induction false} OctalAndDecimal(text: string)
    requires '_' !in text && OctalValue(text).Some? && DigitsValue(text, 10).Some?
    ensures OctalValue(text).value <= DigitsValue(text, 10).value
    ensures OctalValue(text) == DigitsValue(text, 10) <==> DigitsValue(text, 10).value < 8
  {
    if |text| > 1 {
      assert text[|text| - 2] in text;
      OctalAndDecimal(text[..|text| - 1]);
    }
  }

  lemma {:induction false} DecimalInC(text: string)
    requires IsDecimal(text) && CConstant(text).Some?
    ensures CConstant(text) == ParseInt(text, 10) <==> NoOctalSurprise(text)
  {
    var u := Magnitude(text);
    DigitsOnly(u, 10);
    assert |u| >= 2 ==> u[1] in u;
    if |u| >= 2 && u[0] == '0' {
      OctalAndDecimal(u);
    }
  }

  lemma {:induction false} HexadecimalInC(text: string)
    requires IsHexNumeral(text) && CConstant(text).Some?
    ensures CConstant(text) == ParseInt(text, 16)
  {
    StripKeepsTwo(text);
    var t := Strip(text);
    assert t[0] == '0' && t[1] == 'x' && Magnitude(text) == t;
    assert |t| > 2 ==> t[2] in t;
  }

  /** The program and C read an explicit numeral alike exactly when it is no octal surprise. */
  lemma {:induction false} ReadLikeC(value: Option<EtorText>)
    requires IsNumeral(value) && value.Some?
    ensures EtorValue(value, 0) == CConstant(value.value.text) <==> NoOctalSurprise(value.value.text)
  {
    var text := value.value.text;
    if IsDecimal(text) {
      DecimalFacts(text);
      DecimalInC(text);
    } else {
      HexadecimalInC(text);
    }
  }

  lemma {:induction false} DigitsOnly(text: string, base: nat)
    requires IsBase(base) && DigitsValue(text, base).Some?
    ensures text != [] && forall c :: c in text ==> IsDigit(c, base) || c == '_'
    decreases |text|
  {
    var n := |text|;
    if n > 1 {
      var front := if text[n - 2] == '_' then text[..n - 2] else text[..n - 1];
      DigitsOnly(front, base);
      assert forall c :: c in text ==> c in front || c == text[n - 1] || c == text[n - 2];
      assert text[n - 2] == '_' || text[n - 2] in front;
    }
  }

  lemma {:induction false} DecimalDigitsAreHex(text: string)
    requires DigitsValue(text, 10).Some?
    ensures DigitsValue(text, 16).Some?
    decreases |text|
  {
    var n := |text|;
    if n > 1 {
      DecimalDigitsAreHex(if text[n - 2] == '_' then text[..n - 2] else text[..n - 1]);
    }
  }

  lemma {:induction false} UnsignedDecimal(text: string)
    requires Unsigned(text, 10).Some?
    ensures Unsigned(text, 16).Some?
  {
    DigitsOnly(text, 10);
    DecimalDigitsAreHex(text);
    assert |text| >= 2 ==> text[1] in text;
  }

  /** A decimal numeral is not taken for a hexadecimal one, but can be read as one. */
  lemma {:induction false} DecimalFacts(text: string)
    requires IsDecimal(text)
    ensures !IsHexText(text) && text != "" && ParseInt(text, 16).Some?
  {
    var t := Strip(text);
    if t != [] && (t[0] == '-' || t[0] == '+') {
      UnsignedDecimal(t[1..]);
    } else {
      UnsignedDecimal(t);
      DigitsOnly(t, 10);
    }
    if IsHexText(text) {
      HexTextIsNotDecimal(text);
    }
  }

  lemma {:induction false} StripKeepsTwo(text: string)
    requires |text| >= 2 && !IsSpace(text[0]) && !IsSpace(text[1])
    ensures |Strip(text)| >= 2 && Strip(text) <= text
    decreases |text|
  {
    if IsSpace(text[|text| - 1]) {
      StripKeepsTwo(text[..|text| - 1]);
    }
  }

  lemma {:induction false} HexTextIsNotDecimal(text: string)
    requires IsHexText(text)
    ensures ParseInt(text, 10) == None
  {
    StripKeepsTwo(text);
    var t := Strip(text);
    assert t[1] == 'x' && t[1] in t;
    if DigitsValue(t, 10).Some? {
      DigitsOnly(t, 10);
    }
  }

  lemma {:induction false} NegativeHexIsNotDecimal(n: int)
    requires n < 0
    ensures !IsHexText(HexStr(n)) && ParseInt(HexStr(n), 10) == None
  {
    var digits := Digits(-n, 16);
    DigitsAreDigits(-n, 16);
    assert digits[|digits| - 1] in digits;
    StripNothing(HexStr(n));
    var t := HexStr(n)[1..];
    assert t[1] == 'x' && t[1] in t;
    if DigitsValue(t, 10).Some? {
      DigitsOnly(t, 10);
    }
  }

  /** The text filled in for a missing value reads back as the running number, if it is in step. */
  lemma {:induction false} FilledReadsBack(st: Numbering)
    ensures var text := Filled(st, None).text;
            && text != ""
            && ParseInt(text, if st.useHex then 16 else 10) == Some(st.next)
            && EtorValue(Some(Plain(text)), 0) == (if st.useHex && st.next < 0 then None else Some(st.next))
  {
    var n := st.next;
    var m := if n < 0 then -n else n;
    if st.useHex {
      HexRoundTrip(n);
      var digits := Digits(m, 16);
      DigitsAreDigits(m, 16);
      assert digits[0] in digits;
      if n < 0 {
        NegativeHexIsNotDecimal(n);
      }
    } else {
      StrRoundTrip(n);
      DecimalFacts(Str(n));
    }
  }

  /** A step fails exactly on a value that is not a number in the base in force; version macros pass in base 10. */
  lemma {:induction false} StepFailsIff(st: Numbering, value: Option<EtorText>)
    ensures NumberStep(st, value).None? <==>
              && value.Some?
              && (|| value.value.Bit?
                  || (value.value.Ver? && st.useHex)
                  || (&& value.value.Plain?
                      && var text := value.value.text;
                      ParseInt(text, if st.useHex || IsHexText(text) then 16 else 10) == None))
    ensures value.Some? && value.value.Ver? && !st.useHex ==> NumberStep(st, value) == Some(st)
  {
    if value.None? {
      FilledReadsBack(st);
    }
  }

  /** Explicit values are kept as they are written. */
  lemma {:induction false} ExplicitKept(st: Numbering, values: seq<Option<EtorText>>, i: nat)
    requires Number(st, values).Some? && i < |values|
    ensures |Number(st, values).value| == |values|
    ensures values[i].Some? ==> Number(st, values).value[i] == values[i].value
    decreases |values|
  {
    var next := NumberStep(st, values[0]).value;
    if i > 0 {
      ExplicitKept(next, values[1..], i - 1);
    } else if |values| > 1 {
      ExplicitKept(next, values[1..], 0);
    }
  }

  // ---------------------------------------------------------------- agreement with C

  /** C's rule: the explicit value as C reads it, else one more than the previous one. */
  function CValue(value: Option<EtorText>, prev: int): int {
    match value
    case None => prev + 1
    case Some(Plain(text)) => if CConstant(text).Some? then CConstant(text).value else 0
    case Some(_) => 0
  }

  function CNumbering(values: seq<Option<EtorText>>, prev: int): seq<int> {
    if values == [] then []
    else [CValue(values[0], prev)] + CNumbering(values[1..], CValue(values[0], prev))
  }

  /** The filled texts all read back as these numbers. */
  predicate ReadAs(filled: seq<EtorText>, numbers: seq<int>) {
    |filled| == |numbers| && forall i :: 0 <= i < |filled| ==> EtorValue(Some(filled[i]), 0) == Some(numbers[i])
  }

  /** The strings filled in by the pass have the numbers that C gives to the enumerators. */
  predicate AgreesWithC(st: Numbering, values: seq<Option<EtorText>>, prev: int) {
    var filled := Number(st, values);
    filled.Some? && ReadAs(filled.value, CNumbering(values, prev))
  }

  /** Read in base 16 the decimal numeral has the same value, and its successor is not negative. */
  predicate HarmlessInHex(text: string) {
    IsDecimal(text) ==> ParseInt(text, 16) == ParseInt(text, 10) && ParseInt(text, 10).value >= -1
  }

  /** An enumerator without a value follows a decimal one although an earlier one is hexadecimal. */
  predicate Harmless(values: seq<Option<EtorText>>, useHex: bool) {
    values != [] ==>
      var hex := useHex || IsHex(values[0]);
      && (hex && |values| > 1 && values[0].Some? && values[1].None? && values[0].value.Plain? ==>
            HarmlessInHex(values[0].value.text))
      && Harmless(values[1..], hex)
  }

  lemma {:induction false} HexNumeralIsNatural(text: string)
    requires IsHexNumeral(text)
    ensures ParseInt(text, 16).value >= 0
  {
    StripKeepsTwo(text);
  }

  lemma {:induction false} ExplicitStep(st: Numbering, value: Option<EtorText>)
    requires IsNumeral(value) && value.Some?
    ensures NumberStep(st, value).Some?
  {
    if IsDecimal(value.value.text) {
      DecimalFacts(value.value.text);
    }
  }

  lemma {:induction false} ExplicitValue(st: Numbering, value: Option<EtorText>, prev: int)
    requires IsNumeral(value) && value.Some? && NoOctalSurprise(value.value.text)
    ensures NumberStep(st, value).Some?
    ensures NumberStep(st, value).value.useHex == (st.useHex || IsHex(value))
    ensures EtorValue(value, prev).Some? && EtorValue(value, prev) == EtorValue(value, 0)
    ensures IsHex(value) ==> CValue(value, prev) >= 0
    ensures var next := NumberStep(st, value).value;
            next.next == CValue(value, prev) + 1
            || (next.useHex && IsDecimal(value.value.text) && next.next == ParseInt(value.value.text, 16).value + 1
                && CValue(value, prev) == ParseInt(value.value.text, 10).value)
  {
    var text := value.value.text;
    ReadLikeC(value);
    if IsDecimal(text) {
      DecimalFacts(text);
    } else {
      HexNumeralIsNatural(text);
    }
  }

  lemma {:induction false} MissingValue(st: Numbering, prev: int)
    ensures NumberStep(st, None) == Some(Numbering(st.useHex, st.next + 1))
    ensures CValue(None, prev) == prev + 1
    ensures EtorValue(Some(Filled(st, None)), 0) == (if st.useHex && st.next < 0 then None else Some(st.next))
  {
    FilledReadsBack(st);
  }

  /** The pass is in step with C when the next number is needed. */
  predicate InStep(st: Numbering, values: seq<Option<EtorText>>, prev: int) {
    values != [] && values[0].None? ==> st.next == prev + 1 && (st.useHex ==> st.next >= 0)
  }

  /** An enumerator without a value agrees with C when the pass is in step, and stays in step. */
  lemma {:induction false} MissingAgrees(st: Numbering, values: seq<Option<EtorText>>, prev: int)
    requires values != [] && values[0].None?
    ensures var next, c := Numbering(st.useHex, st.next + 1), prev + 1;
            InStep(st, values, prev) && Harmless(values, st.useHex) <==>
              && EtorValue(Some(Filled(st, None)), 0) == Some(c)
              && InStep(next, values[1..], c)
              && Harmless(values[1..], st.useHex)
  {
    MissingValue(st, prev);
  }

  /** An explicit value always agrees; it leaves the pass in step unless it is a harmful decimal. */
  lemma {:induction false} ExplicitAgrees(st: Numbering, values: seq<Option<EtorText>>, prev: int)
    requires values != [] && values[0].Some? && IsNumeral(values[0]) && NoOctalSurprise(values[0].value.text)
    ensures var next, c := NumberStep(st, values[0]), CValue(values[0], prev);
            && next.Some?
            && EtorValue(values[0], 0) == Some(c)
            && (Harmless(values, st.useHex) <==>
                  InStep(next.value, values[1..], c) && Harmless(values[1..], next.value.useHex))
  {
    ExplicitValue(st, values[0], prev);
    ReadLikeC(values[0]);
    var text := values[0].value.text;
    if |values| > 1 {
      assert values[1..][0] == values[1];
      if IsDecimal(text) {
        DecimalFacts(text);
      }
    } else {
      assert values[1..] == [];
    }
  }

  lemma {:induction false} AgreesFrom(st: Numbering, values: seq<Option<EtorText>>, prev: int)
    requires forall v :: v in values ==> IsNumeral(v)
    ensures Number(st, values).Some? && |Number(st, values).value| == |values| == |CNumbering(values, prev)|
    ensures AgreesWithC(st, values, prev) <==>
              InStep(st, values, prev) && Harmless(values, st.useHex) && NoOctalSurprises(values)
    decreases |values|
  {
    if values != [] {
      assert IsNumeral(values[0]);
      if values[0].None? {
        MissingValue(st, prev);
        MissingAgrees(st, values, prev);
      } else {
        ExplicitStep(st, values[0]);
        ReadLikeC(values[0]);
        if NoOctalSurprise(values[0].value.text) {
          ExplicitValue(st, values[0], prev);
          ExplicitAgrees(st, values, prev);
        }
      }
      NoOctalSurprisesCons(values);
      var next, c := NumberStep(st, values[0]).value, CValue(values[0], prev);
      AgreesFrom(next, values[1..], c);
      ReadAsCons(Filled(Numbering(next.useHex, st.next), values[0]), Number(next, values[1..]).value,
                 c, CNumbering(values[1..], c));
    }
  }

  predicate NoOctalSurprises(values: seq<Option<EtorText>>) {
    forall v :: v in values && v.Some? && v.value.Plain? ==> NoOctalSurprise(v.value.text)
  }

  lemma {:induction false} NoOctalSurprisesCons(values: seq<Option<EtorText>>)
    requires values != []
    ensures NoOctalSurprises(values) <==>
              && (values[0].Some? && values[0].value.Plain? ==> NoOctalSurprise(values[0].value.text))
              && NoOctalSurprises(values[1..])
  {
    assert forall v :: v in values <==> v == values[0] || v in values[1..];
  }

  lemma {:induction false} ReadAsCons(x: EtorText, xs: seq<EtorText>, n: int, ns: seq<int>)
    requires |xs| == |ns|
    ensures ReadAs([x] + xs, [n] + ns) <==> EtorValue(Some(x), 0) == Some(n) && ReadAs(xs, ns)
  {
    var ys, ms := [x] + xs, [n] + ns;
    if ReadAs(ys, ms) {
      assert ys[0] == x && ms[0] == n;
      forall i | 0 <= i < |xs|
        ensures EtorValue(Some(xs[i]), 0) == Some(ns[i])
      {
        assert ys[i + 1] == xs[i] && ms[i + 1] == ns[i];
      }
    }
  }

  predicate HexBefore(values: seq<Option<EtorText>>, i: nat)
    requires i <= |values|
  {
    exists j :: 0 <= j < i && IsHex(values[j])
  }

  /**
   A decimal numeral that comes after a hexadecimal one and right before an enumerator without a
   value has the same reading in both bases, with a successor that is not negative.
   */
  predicate NoHarmfulDecimal(values: seq<Option<EtorText>>, useHex: bool) {
    forall i :: 0 <= i < |values| - 1 && values[i].Some? && values[i].value.Plain? && values[i + 1].None?
                && (useHex || HexBefore(values, i)) ==>
      HarmlessInHex(values[i].value.text)
  }

  lemma {:induction false} HexBeforeTail(values: seq<Option<EtorText>>, i: nat)
    requires 0 < i <= |values|
    ensures HexBefore(values, i) <==> IsHex(values[0]) || HexBefore(values[1..], i - 1)
  {
    if HexBefore(values, i) && !IsHex(values[0]) {
      var j :| 0 <= j < i && IsHex(values[j]);
      assert values[1..][j - 1] == values[j];
    }
    if HexBefore(values[1..], i - 1) {
      var j :| 0 <= j < i - 1 && IsHex(values[1..][j]);
      assert values[j + 1] == values[1..][j];
    }
  }

  lemma {:induction false} NoHarmfulDecimalTail(values: seq<Option<EtorText>>, useHex: bool)
    requires values != [] && NoHarmfulDecimal(values, useHex)
    ensures NoHarmfulDecimal(values[1..], useHex || IsHex(values[0]))
  {
    var rest, hex := values[1..], useHex || IsHex(values[0]);
    forall i | 0 <= i < |rest| - 1 && rest[i].Some? && rest[i].value.Plain? && rest[i + 1].None?
               && (hex || HexBefore(rest, i))
      ensures HarmlessInHex(rest[i].value.text)
    {
      HexBeforeTail(values, i + 1);
      assert values[i + 1] == rest[i] && values[i + 2] == rest[i + 1];
    }
  }

  lemma {:induction false} NoHarmfulDecimalCons(values: seq<Option<EtorText>>, useHex: bool)
    requires values != [] && NoHarmfulDecimal(values[1..], useHex || IsHex(values[0]))
    requires useHex && |values| > 1 && values[0].Some? && values[1].None? && values[0].value.Plain? ==>
               HarmlessInHex(values[0].value.text)
    ensures NoHarmfulDecimal(values, useHex)
  {
    var rest := values[1..];
    forall i | 0 <= i < |values| - 1 && values[i].Some? && values[i].value.Plain? && values[i + 1].None?
               && (useHex || HexBefore(values, i))
      ensures HarmlessInHex(values[i].value.text)
    {
      if i > 0 {
        HexBeforeTail(values, i);
        assert values[i] == rest[i - 1] && values[i + 1] == rest[i];
      }
    }
  }

  lemma {:induction false} HarmlessEverywhere(values: seq<Option<EtorText>>, useHex: bool)
    ensures Harmless(values, useHex) <==> NoHarmfulDecimal(values, useHex)
    decreases |values|
  {
    if values != [] {
      HarmlessEverywhere(values[1..], useHex || IsHex(values[0]));
      if IsHex(values[0]) {
        HexTextIsNotDecimal(values[0].value.text);
      }
      if Harmless(values, useHex) {
        NoHarmfulDecimalCons(values, useHex);
      }
      if NoHarmfulDecimal(values, useHex) {
        NoHarmfulDecimalTail(values, useHex);
      }
    }
  }

  /**
   For every enum of numerals the texts filled in by the pass, read back, are C's numbering if and
   only if there is no harmful decimal and no numeral that C reads as a larger octal one.
   */
  lemma {:induction false} NumberingAgreesIff(values: seq<Option<EtorText>>)
    requires forall v :: v in values ==> IsNumeral(v)
    ensures AgreesWithC(Numbering(false, 0), values, -1) <==>
              NoHarmfulDecimal(values, false) && NoOctalSurprises(values)
  {
    AgreesFrom(Numbering(false, 0), values, -1);
    HarmlessEverywhere(values, false);
  }

  /** When the explicit values are all decimal or all hexadecimal, only an octal one can go wrong. */
  lemma {:induction false} OneBaseAgrees(values: seq<Option<EtorText>>)
    requires forall v :: v in values ==> IsNumeral(v)
    requires || (forall v :: v in values && v.Some? ==> IsHex(v))
             || (forall v :: v in values ==> !IsHex(v))
    ensures AgreesWithC(Numbering(false, 0), values, -1) <==> NoOctalSurprises(values)
  {
    NumberingAgreesIff(values);
    forall i | 0 <= i < |values| - 1 && values[i].Some? && values[i].value.Plain? && HexBefore(values, i)
      ensures HarmlessInHex(values[i].value.text)
    {
      assert values[i] in values;
      HexTextIsNotDecimal(values[i].value.text);
    }
  }

  lemma {:induction false} MixedNumerals()
    ensures IsNumeral(Some(Plain("0x1"))) && IsNumeral(Some(Plain("10"))) && IsHexText("0x1")
    ensures ParseInt("10", 10) == Some(10) && ParseInt("10", 16) == Some(16)
  {
    TenReadings();
    assert "0x1" == HexStr(1);
    HexRoundTrip(1);
    StripNothing("0x1");
    assert "0x1"[2..] == "1" && DigitsValue("1", 16) == Some(1);
    StripNothing("10");
    assert "10"[..1] == "1" && DigitsValue("1", 10) == Some(1);
  }

  /** Mixed bases go wrong: after 0x1 and 10 the next enumerator becomes 0x11, while C gives it 11. */
  lemma {:induction false} MixedBasesDisagree()
    ensures var values := [Some(Plain("0x1")), Some(Plain("10")), None];
            !AgreesWithC(Numbering(false, 0), values, -1)
  {
    var values: seq<Option<EtorText>> := [Some(Plain("0x1")), Some(Plain("10")), None];
    MixedNumerals();
    assert IsHex(values[0]) && HexBefore(values, 1);
    assert values[2].None?;
    NumberingAgreesIff(values);
  }

  /** A leading zero goes wrong too: 010 is read as 10, while C gives it 8. */
  lemma {:induction false} OctalDisagrees()
    ensures !AgreesWithC(Numbering(false, 0), [Some(Plain("010"))], -1)
  {
    var values: seq<Option<EtorText>> := [Some(Plain("010"))];
    OctalReadings();
    assert values[0] in values;
    NumberingAgreesIff(values);
  }

  lemma {:induction false} OctalReadings()
    ensures ParseInt("010", 10) == Some(10) && CConstant("010") == Some(8) && Magnitude("010") == "010"
  {
    var t := "010";
    StripNothing(t);
    assert t[..2] == "01" && "01"[..1] == "0";
    assert DigitsValue("01", 10) == Some(1) && OctalValue("01") == Some(1);
  }

  lemma {:induction false} TenReadings()
    ensures ParseInt("10", 10) == Some(10) && ParseInt("10", 16) == Some(16)
  {
    assert "10" == Str(10) == Digits(16, 16);
    StrRoundTrip(10);
    UnsignedDigits(16, 16);
  }

  // ---------------------------------------------------------------- flags enums

  /** The text a flag ends up with. */
  function FlagText(value: Option<EtorText>, next: int): EtorText {
    if value.Some? then value.value else Bit(Str(next))
  }

  /** Filling in the values of a flags enum: the next bit follows the previous one. */
  function NumberFlags(values: seq<Option<EtorText>>, next: int): seq<EtorText> {
    if values == [] then []
    else
      var filled := FlagText(values[0], next);
      [filled] + NumberFlags(values[1..], BitCount(filled) + 1)
  }

  lemma {:induction false} AppendTwice(done: seq<EtorText>, text: EtorText, rest: seq<EtorText>)
    ensures done + ([text] + rest) == done + [text] + rest
  {
  }

  method PreprocessFlags(values: seq<Option<EtorText>>) returns (filled: seq<EtorText>)
    ensures filled == NumberFlags(values, 0)
  {
    var next := 0;
    filled := [];
    for i := 0 to |values|
      invariant filled + NumberFlags(values[i..], next) == NumberFlags(values, 0)
    {
      assert values[i..][1..] == values[i + 1..];
      var text := FlagText(values[i], next);
      AppendTwice(filled, text, NumberFlags(values[i + 1..], BitCount(text) + 1));
      next := BitCount(text) + 1;
      filled := filled + [text];
    }
  }

  lemma {:induction false} FlagsLength(values: seq<Option<EtorText>>, next: int)
    ensures |NumberFlags(values, next)| == |values|
  {
    if values != [] {
      var filled := FlagText(values[0], next);
      FlagsLength(values[1..], BitCount(filled) + 1);
    }
  }

  lemma {:induction false} FlagTextBit(next: int)
    ensures BitCount(FlagText(None, next)) == next
  {
    StrRoundTrip(next);
  }

  /** A flag without a value is the bit after the previous flag; explicit values are kept. */
  lemma {:induction false} FlagsFollowOn(values: seq<Option<EtorText>>, next: int, i: nat)
    requires i < |values|
    ensures |NumberFlags(values, next)| == |values|
    ensures var flags := NumberFlags(values, next);
            flags[i] == FlagText(values[i], if i == 0 then next else BitCount(flags[i - 1]) + 1)
    ensures var flags := NumberFlags(values, next);
            values[i].None? ==>
              flags[i].Bit? && BitCount(flags[i]) == if i == 0 then next else BitCount(flags[i - 1]) + 1
  {
    FlagsLength(values, next);
    var flags := NumberFlags(values, next);
    if i > 0 {
      var first := FlagText(values[0], next);
      assert flags == [first] + NumberFlags(values[1..], BitCount(first) + 1);
      FlagsFollowOn(values[1..], BitCount(first) + 1, i - 1);
    }
    FlagTextBit(if i == 0 then next else BitCount(flags[i - 1]) + 1);
  }

  /** Validation of a flags enum: every value is a BIT macro below the limit. */
  predicate AcceptedFlag(value: EtorText) {
    && value.Bit?
    && EtorValue(Some(value), 0).Some?
    && EtorValue(Some(value), 0).value < VALUE_LIMIT
  }

  predicate IsBit(value: Option<EtorText>) {
    value.Some? && value.value.Bit?
  }

  /** Validation of the values of any enum: flags are BIT macros and nothing else is; all are below the limit. */
  predicate Accepted(flags: bool, values: seq<Option<EtorText>>, prev: int)
    decreases |values|
  {
    values != [] ==>
      var v := EtorValue(values[0], prev);
      && v.Some?
      && flags == IsBit(values[0])
      && v.value < VALUE_LIMIT
      && Accepted(flags, values[1..], v.value)
  }

  method ValidateEtors(flags: bool, values: seq<Option<EtorText>>) returns (ok: bool)
    ensures ok <==> Accepted(flags, values, -1)
  {
    var value := -1;
    assert values[0..] == values;
    for i := 0 to |values|
      invariant Accepted(flags, values, -1) <==> Accepted(flags, values[i..], value)
    {
      assert values[i..][1..] == values[i + 1..];
      var parsed := EtorValue(values[i], value);
      if parsed.None? || (flags && !IsBit(values[i])) || (!flags && IsBit(values[i])) || parsed.value >= VALUE_LIMIT {
        return false;
      }
      value := parsed.value;
    }
    ok := true;
  }

  /** A flags enum is accepted exactly when every flag is one of the bits 0 to 30. */
  lemma {:induction false} FlagsAcceptedIff(values: seq<Option<EtorText>>, prev: int)
    ensures Accepted(true, values, prev) <==>
              forall v :: v in values ==> v.Some? && v.value.Bit? && 0 <= BitCount(v.value) <= 30
    decreases |values|
  {
    if values != [] {
      assert forall v :: v in values <==> v == values[0] || v in values[1..];
      if IsBit(values[0]) {
        AcceptedFlagIsLowBit(values[0].value);
        if AcceptedFlag(values[0].value) {
          FlagsAcceptedIff(values[1..], EtorValue(values[0], prev).value);
        }
      }
    }
  }

  predicate AllBelow(numbers: seq<int>, limit: int) {
    forall i :: 0 <= i < |numbers| ==> numbers[i] < limit
  }

  lemma {:induction false} AllBelowCons(c: int, rest: seq<int>, limit: int)
    ensures AllBelow([c] + rest, limit) <==> c < limit && AllBelow(rest, limit)
  {
    var all := [c] + rest;
    if AllBelow(all, limit) {
      assert all[0] == c;
      forall i | 0 <= i < |rest|
        ensures rest[i] < limit
      {
        assert all[i + 1] == rest[i];
      }
    }
  }

  /** Any other enum of numerals is accepted exactly when C's numbering stays below 0x7fffffff. */
  lemma {:induction false} NumeralsAcceptedIff(values: seq<Option<EtorText>>, prev: int)
    requires (forall v :: v in values ==> IsNumeral(v)) && NoOctalSurprises(values)
    ensures Accepted(false, values, prev) <==> AllBelow(CNumbering(values, prev), 0x7FFF_FFFF)
    decreases |values|
  {
    if values != [] {
      assert IsNumeral(values[0]);
      NoOctalSurprisesCons(values);
      ReaderFollowsC(values[0], prev);
      var c := CValue(values[0], prev);
      NumeralsAcceptedIff(values[1..], c);
      AllBelowCons(c, CNumbering(values[1..], c), 0x7FFF_FFFF);
      assert !IsBit(values[0]);
    }
  }

  /** An enumerator is read as C numbers it; an empty text counts as no value. */
  lemma {:induction false} ReaderFollowsC(value: Option<EtorText>, prev: int)
    requires IsNumeral(value) && (value.Some? ==> NoOctalSurprise(value.value.text))
    ensures EtorValue(value, prev) == Some(CValue(value, prev))
    ensures EtorValue(Some(Plain("")), prev) == Some(prev + 1)
  {
    if value.Some? {
      ReadLikeC(value);
      if IsDecimal(value.value.text) {
        DecimalFacts(value.value.text);
      }
      assert value.value.text != "";
      assert EtorValue(value, prev) == EtorValue(value, 0);
    }
  }

  /** Where there is no number, the bit count is 0. */
  lemma {:induction false} NoBitCount(text: string, major: nat, minor: nat)
    requires ParseInt(text, 10) == None
    ensures BitCount(Bit(text)) == 0 && BitCount(Plain(text)) == 0 && BitCount(Ver(major, minor)) == 0
  {
  }

  lemma {:induction false} FourMore(n: nat)
    ensures Pow2(n + 4) == 16 * Pow2(n)
  {
    assert Pow2(n + 1) == 2 * Pow2(n);
    assert Pow2(n + 2) == 4 * Pow2(n);
    assert Pow2(n + 3) == 8 * Pow2(n);
  }

  lemma {:induction false} PowersOfTwo()
    ensures Pow2(30) == 0x4000_0000 && Pow2(31) == 0x8000_0000 && Pow2(32) == 0x1_0000_0000
  {
    assert Pow2(0) == 1;
    FourMore(0);
    FourMore(4);
    FourMore(8);
    FourMore(12);
    FourMore(16);
    FourMore(20);
    FourMore(24);
    FourMore(28);
    assert Pow2(32) == 2 * Pow2(31) && Pow2(31) == 2 * Pow2(30);
  }

  lemma {:induction false} Pow2Grows(m: nat, n: nat)
    requires m <= n
    ensures Pow2(m) <= Pow2(n)
  {
    if m < n {
      Pow2Grows(m, n - 1);
    }
  }

  /** An accepted flag is one of the bits 0 to 30. */
  lemma {:induction false} AcceptedFlagIsLowBit(value: EtorText)
    requires value.Bit?
    ensures AcceptedFlag(value) <==> 0 <= BitCount(value) <= 30
  {
    PowersOfTwo();
    if BitCount(value) > 30 {
      Pow2Grows(31, BitCount(value));
    } else if BitCount(value) >= 0 {
      Pow2Grows(BitCount(value), 30);
    }
  }

  // ---------------------------------------------------------------- 32-bit words

  const WORD_BITS := 32

  /** A 32-bit word, least significant bit first. */
  type Word = s: seq<bool> | |s| == WORD_BITS witness seq(WORD_BITS, _ => false)

  function Zero(): Word {
    seq(WORD_BITS, _ => false)
  }

  function Or(a: Word, b: Word): Word {
    seq(WORD_BITS, i requires 0 <= i < WORD_BITS => a[i] || b[i])
  }

  function And(a: Word, b: Word): Word {
    seq(WORD_BITS, i requires 0 <= i < WORD_BITS => a[i] && b[i])
  }

  function Not(a: Word): Word {
    seq(WORD_BITS, i requires 0 <= i < WORD_BITS => !a[i])
  }

  /** The number that a bit string stands for. */
  function WordValue(bits: seq<bool>): nat {
    if bits == [] then 0 else (if bits[0] then 1 else 0) + 2 * WordValue(bits[1..])
  }

  /** The word `1 << n`. */
  function OneBit(n: int): Word {
    seq(WORD_BITS, i => i == n)
  }

  lemma {:induction false} OneBitValue(bits: seq<bool>, n: nat)
    requires n < |bits| && forall i :: 0 <= i < |bits| ==> (bits[i] <==> i == n)
    ensures WordValue(bits) == Pow2(n)
  {
    if n == 0 {
      NoBitValue(bits[1..]);
    } else {
      OneBitValue(bits[1..], n - 1);
    }
  }

  lemma NoBitValue(bits: seq<bool>)
    requires forall i :: 0 <= i < |bits| ==> !bits[i]
    ensures WordValue(bits) == 0
  {
  }

  /** The word of a flag is the value that validation sees. */
  lemma {:induction false} FlagWordIsValue(value: EtorText)
    requires AcceptedFlag(value)
    ensures Some(WordValue(FlagWord(value)) as int) == EtorValue(Some(value), 0)
  {
    AcceptedFlagIsLowBit(value);
    OneBitValue(FlagWord(value), BitCount(value));
  }

  lemma {:induction false} ComplementBits(bits: seq<bool>, other: seq<bool>)
    requires |bits| == |other| && forall i :: 0 <= i < |bits| ==> bits[i] == !other[i]
    ensures WordValue(bits) + WordValue(other) == Pow2(|bits|) - 1
  {
    if bits != [] {
      ComplementBits(bits[1..], other[1..]);
    }
  }

  /** The complement is the one of 32 bits. */
  lemma {:induction false} ComplementValue(w: Word)
    ensures WordValue(Not(w)) == 0xFFFF_FFFF - WordValue(w)
  {
    ComplementBits(Not(w), w);
    PowersOfTwo();
  }

  // ---------------------------------------------------------------- the mask of a flags enum

  function FlagWord(value: EtorText): Word {
    OneBit(BitCount(value))
  }

  /** `bit_mask`: the flags or-ed together. */
  function BitMask(values: seq<EtorText>): Word {
    if values == [] then Zero() else Or(FlagWord(values[0]), BitMask(values[1..]))
  }

  /** The selected flags or-ed together. */
  function OrOf(values: seq<EtorText>, selected: seq<bool>): Word
    requires |values| == |selected|
  {
    if values == [] then Zero()
    else Or(if selected[0] then FlagWord(values[0]) else Zero(), OrOf(values[1..], selected[1..]))
  }

  ghost predicate IsUnionOfFlags(values: seq<EtorText>, v: Word) {
    exists selected :: |selected| == |values| && OrOf(values, selected) == v
  }

  /** The loop of the meta pass over a flags enum, and the constant of the generated check. */
  method GenerateFlagsMask(values: seq<EtorText>) returns (mask: Word)
    ensures mask == Not(BitMask(values))
  {
    var bitMask := Zero();
    for i := 0 to |values|
      invariant Or(bitMask, BitMask(values[i..])) == BitMask(values)
    {
      assert values[i..][1..] == values[i + 1..];
      var flag := FlagWord(values[i]);
      assert Or(Or(bitMask, flag), BitMask(values[i + 1..])) == Or(bitMask, BitMask(values[i..]));
      bitMask := Or(bitMask, flag);
    }
    assert Or(bitMask, Zero()) == bitMask;
    mask := Not(bitMask);
  }

  /** A bit is in the union exactly when it is the bit of a selected flag. */
  lemma {:induction false} OrOfBit(values: seq<EtorText>, selected: seq<bool>, i: nat)
    requires |values| == |selected| && i < WORD_BITS
    ensures OrOf(values, selected)[i] <==>
              exists k :: 0 <= k < |values| && selected[k] && BitCount(values[k]) == i
  {
    if values != [] {
      var vs, ss := values[1..], selected[1..];
      OrOfBit(vs, ss, i);
      if exists k :: 0 <= k < |vs| && ss[k] && BitCount(vs[k]) == i {
        var k :| 0 <= k < |vs| && ss[k] && BitCount(vs[k]) == i;
        assert selected[k + 1] && BitCount(values[k + 1]) == i;
      }
      if exists k :: 0 <= k < |values| && selected[k] && BitCount(values[k]) == i {
        var k :| 0 <= k < |values| && selected[k] && BitCount(values[k]) == i;
        assert k == 0 || (ss[k - 1] && BitCount(vs[k - 1]) == i);
      }
    }
  }

  lemma {:induction false} MaskIsFullUnion(values: seq<EtorText>)
    ensures BitMask(values) == OrOf(values, seq(|values|, _ => true))
  {
    if values != [] {
      MaskIsFullUnion(values[1..]);
      assert seq(|values|, _ => true)[1..] == seq(|values| - 1, _ => true);
    }
  }

  lemma {:induction false} MaskBit(values: seq<EtorText>, i: nat)
    requires i < WORD_BITS
    ensures BitMask(values)[i] <==> exists k :: 0 <= k < |values| && BitCount(values[k]) == i
  {
    MaskIsFullUnion(values);
    OrOfBit(values, seq(|values|, _ => true), i);
  }

  lemma {:induction false} MaskTest(mask: Word, v: Word)
    ensures And(Not(mask), v) == Zero() <==> forall i :: 0 <= i < WORD_BITS && v[i] ==> mask[i]
  {
    if And(Not(mask), v) == Zero() {
      forall i | 0 <= i < WORD_BITS && v[i]
        ensures mask[i]
      {
        assert !And(Not(mask), v)[i];
      }
    }
  }

  /** The part of a word that lies in the mask is the union of the flags whose bit it has. */
  lemma {:induction false} UnionOfOwnFlags(values: seq<EtorText>, v: Word) returns (selected: seq<bool>)
    requires forall i :: 0 <= i < WORD_BITS && v[i] ==> BitMask(values)[i]
    ensures |selected| == |values| && OrOf(values, selected) == v
  {
    selected := seq(|values|, k requires 0 <= k < |values| =>
                      0 <= BitCount(values[k]) < WORD_BITS && v[BitCount(values[k])]);
    forall i | 0 <= i < WORD_BITS
      ensures OrOf(values, selected)[i] == v[i]
    {
      OrOfBit(values, selected, i);
      if v[i] {
        MaskBit(values, i);
        var k :| 0 <= k < |values| && BitCount(values[k]) == i;
        assert selected[k];
      }
    }
  }

  /** The generated check `MASK & v` is zero exactly when `v` is the union of some declared flags. */
  lemma {:induction false} MaskAcceptsUnions(values: seq<EtorText>, v: Word)
    ensures And(Not(BitMask(values)), v) == Zero() <==> IsUnionOfFlags(values, v)
  {
    MaskTest(BitMask(values), v);
    if And(Not(BitMask(values)), v) == Zero() {
      var selected := UnionOfOwnFlags(values, v);
    }
    if IsUnionOfFlags(values, v) {
      var selected :| |selected| == |values| && OrOf(values, selected) == v;
      forall i | 0 <= i < WORD_BITS && v[i]
        ensures BitMask(values)[i]
      {
        OrOfBit(values, selected, i);
        var k :| 0 <= k < |values| && selected[k] && BitCount(values[k]) == i;
        MaskBit(values, i);
      }
    }
  }

  // ---------------------------------------------------------------- the maximum of other enums

  /** `max_index`: the first enumerator with the largest value, or -1 if no value exceeds -1. */
  method MaxIndex(values: seq<int>) returns (maxIndex: int)
    ensures -1 <= maxIndex < |values|
    ensures maxIndex == -1 <==> forall k :: 0 <= k < |values| ==> values[k] <= -1
    ensures maxIndex >= 0 ==>
              && (forall k :: 0 <= k < |values| ==> values[k] <= values[maxIndex])
              && (forall k :: 0 <= k < maxIndex ==> values[k] < values[maxIndex])
  {
    var maxValue := -1;
    maxIndex := -1;
    for i := 0 to |values|
      invariant -1 <= maxIndex < i
      invariant maxValue == if maxIndex == -1 then -1 else values[maxIndex]
      invariant maxValue >= -1 && (maxIndex >= 0 ==> maxValue >= 0)
      invariant forall k :: 0 <= k < i ==> values[k] <= maxValue
      invariant forall k :: 0 <= k < maxIndex ==> values[k] < maxValue
    {
      if values[i] > maxValue {
        maxValue := values[i];
        maxIndex := i;
      }
    }
  }

  predicate IsLargest(values: seq<int>, k: int) {
    0 <= k < |values| && forall j :: 0 <= j < |values| ==> values[j] <= values[k]
  }

  /** `d["etors"][max_index]`, where the index -1 designates the last enumerator; `None` is an IndexError. */
  method MaxEtor(values: seq<int>) returns (k: Option<nat>)
    ensures k.None? <==> values == []
    ensures k.Some? ==> k.value < |values|
    ensures k.Some? ==>
              (IsLargest(values, k.value) <==>
                 (exists j :: 0 <= j < |values| && values[j] >= 0) || IsLargest(values, |values| - 1))
  {
    var maxIndex := MaxIndex(values);
    if values == [] {
      return None;
    }
    k := Some(if maxIndex == -1 then |values| - 1 else maxIndex);
  }

  /** The refresh of the meta-data names a maximum, which an enum without enumerators does not have. */
  method RefreshMeta(values: seq<int>) returns (ok: bool)
    ensures ok <==> values != []
  {
    var largest := MaxEtor(values);
    ok := largest.Some?;
  }
}
