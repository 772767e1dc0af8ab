/** Decimal literals and the fixed-point text of results: what the literal pattern admits, and that
    writing a value and reading it back changes nothing but the position of trailing zeros. */
module DecimalText {
  import opened Prelude
  import opened PowersOfTen
  import opened Decimals
  import opened CalculatorRange

  predicate IsDigit(c: char) {
    '0' <= c <= '9'
  }

  predicate AllDigits(s: string) {
    forall i :: 0 <= i < |s| ==> IsDigit(s[i])
  }

  /** The number a digit string denotes. */
  function Number(s: string): nat
    requires AllDigits(s)
  {
    if s == "" then 0 else 10 * Number(s[..|s| - 1]) + (s[|s| - 1] as int - '0' as int)
  }

  /** Decimal digits without leading zeros; zero is "0". */
  function DigitText(n: nat): (r: string)
    ensures AllDigits(r) && |r| == Digits(n)
  {
    var last := [('0' as int + n % 10) as char];
    if n < 10 then last else DigitText(n / 10) + last
  }

  function Zeros(k: nat): (r: string)
    ensures AllDigits(r) && |r| == k
  {
    if k == 0 then "" else "0" + Zeros(k - 1)
  }

  // ----- reading: the literal pattern -----

  function Find(c: char, s: string): nat {
    if s == "" || s[0] == c then 0 else 1 + Find(c, s[1..])
  }

  /** An integer part without superfluous zeros. */
  predicate IntegerPart(s: string) {
    s != "" && AllDigits(s) && (s == "0" || s[0] != '0')
  }

  predicate FractionPart(s: string) {
    s != "" && AllDigits(s)
  }

  function Unsigned(s: string): string {
    if s != "" && (s[0] == '-' || s[0] == '+') then s[1..] else s
  }

  /** The strings that the pattern of a literal matches, and the decimal each stands for. */
  function Parse(s: string): Option<Dec> {
    var neg, u := s != "" && s[0] == '-', Unsigned(s);
    var dot := Find('.', u);
    if dot >= |u| then
      if IntegerPart(u) then Some(Dec(neg, Number(u), 0)) else None
    else if IntegerPart(u[..dot]) && FractionPart(u[dot + 1..]) then
      Some(Dec(neg, Number(u[..dot] + u[dot + 1..]), -(|u| - dot - 1)))
    else None
  }

  // ----- writing: format(value, "f") -----

  function Plain(coef: nat, exp: int): string {
    if exp >= 0 then DigitText(Scale(coef, exp))
    else
      var places: nat := -exp;
      var padded := Padded(coef, places);
      padded[..|padded| - places] + "." + padded[|padded| - places..]
  }

  /** At least one digit before the point. */
  function Pad(text: string, places: nat): (r: string)
    requires AllDigits(text)
    ensures AllDigits(r) && |r| > places
  {
    if |text| <= places then Zeros(places + 1 - |text|) + text else text
  }

  function Padded(coef: nat, places: nat): (r: string)
    ensures AllDigits(r) && |r| > places
  {
    Pad(DigitText(coef), places)
  }

  function Format(d: Dec): string {
    (if d.neg then "-" else "") + Plain(d.coef, d.exp)
  }

  // ----- round trip -----

  lemma {:induction false} NumberOfText(n: nat)
    ensures Number(DigitText(n)) == n
    ensures n > 0 ==> DigitText(n)[0] != '0'
    ensures n == 0 ==> DigitText(n) == "0"
  {
    var text := DigitText(n);
    if n >= 10 {
      NumberOfText(n / 10);
      assert text[..|text| - 1] == DigitText(n / 10);
      assert text[0] == DigitText(n / 10)[0];
    } else {
      assert text[..0] == "";
    }
  }

  lemma {:induction false} NumberOfZero(s: string)
    requires AllDigits(s)
    ensures Number("0" + s) == Number(s)
  {
    var t := "0" + s;
    if s == "" {
      assert t[..0] == "";
    } else {
      assert t[..|t| - 1] == "0" + s[..|s| - 1];
      NumberOfZero(s[..|s| - 1]);
    }
  }

  lemma {:induction false} NumberOfPadded(k: nat, s: string)
    requires AllDigits(s)
    ensures Number(Zeros(k) + s) == Number(s)
  {
    if k == 0 {
      assert Zeros(0) + s == s;
    } else {
      assert Zeros(k) + s == "0" + (Zeros(k - 1) + s);
      NumberOfZero(Zeros(k - 1) + s);
      NumberOfPadded(k - 1, s);
    }
  }

  lemma {:induction false} FindNone(s: string)
    requires AllDigits(s)
    ensures Find('.', s) == |s|
  {
    if s != "" { FindNone(s[1..]); }
  }

  lemma {:induction false} FindDot(a: string, b: string)
    requires AllDigits(a)
    ensures Find('.', a + "." + b) == |a|
  {
    var s := a + "." + b;
    if a != "" {
      assert s[1..] == a[1..] + "." + b;
      FindDot(a[1..], b);
    }
  }

  predicate IsSign(sign: string) {
    sign == "" || sign == "+" || sign == "-"
  }

  lemma SignSplit(sign: string, u: string)
    requires IsSign(sign) && u != "" && IsDigit(u[0])
    ensures Unsigned(sign + u) == u && ((sign + u)[0] == '-' <==> sign == "-")
  {
    if sign == "" {
      assert sign + u == u;
    } else {
      assert (sign + u)[0] == sign[0] && (sign + u)[1..] == u;
    }
  }

  /** Text of digits, a point and digits, after its sign. */
  lemma ParseParts(sign: string, a: string, b: string)
    requires IsSign(sign) && IntegerPart(a) && FractionPart(b)
    ensures Parse(sign + (a + "." + b)) == Some(Dec(sign == "-", Number(a + b), -|b|))
  {
    var u := a + "." + b;
    SignSplit(sign, u);
    FindDot(a, b);
    assert u[..|a|] == a && u[|a| + 1..] == b;
  }

  lemma ParseWhole(sign: string, a: string)
    requires IsSign(sign) && IntegerPart(a)
    ensures Parse(sign + a) == Some(Dec(sign == "-", Number(a), 0))
  {
    SignSplit(sign, a);
    FindNone(a);
  }

  /** Reading what was written gives the same value; the very same decimal unless its exponent is positive. */
  lemma RoundTrip(d: Dec)
    ensures Parse(Format(d)) == Some(if d.exp > 0 then Dec(d.neg, Scale(d.coef, d.exp), 0) else d)
    ensures V(Parse(Format(d)).value) == V(d)
  {
    if d.exp >= 0 {
      NumberOfText(Scale(d.coef, d.exp));
      ParseWhole(if d.neg then "-" else "", DigitText(Scale(d.coef, d.exp)));
      UnitsScale(d.coef, d.exp, 0, d.exp);
    } else {
      FractionRoundTrip(d);
    }
  }

  lemma PadNumber(text: string, places: nat)
    requires AllDigits(text)
    ensures Number(Pad(text, places)) == Number(text)
  {
    if |text| <= places {
      NumberOfPadded(places + 1 - |text|, text);
    }
  }

  lemma PadInteger(text: string, places: nat)
    requires AllDigits(text) && (text == "0" || (text != "" && text[0] != '0'))
    ensures IntegerPart(Pad(text, places)[..|Pad(text, places)| - places])
  {
    var padded := Pad(text, places);
    if |text| <= places {
      assert Zeros(places + 1 - |text|)[0] == '0';
      assert padded[..1] == "0";
    } else if text != "0" {
      assert padded[..|padded| - places][0] == text[0];
    }
  }

  lemma Rejoin(text: string, k: nat)
    requires k <= |text| && AllDigits(text)
    ensures text[..k] + text[k..] == text && AllDigits(text[..k]) && AllDigits(text[k..])
  {
  }

  /** The digits of a fraction in its two parts. */
  lemma FractionDigits(coef: nat, places: nat) returns (a: string, b: string)
    requires places >= 1
    ensures IntegerPart(a) && FractionPart(b) && |b| == places && Number(a + b) == coef
    ensures Plain(coef, 0 - places) == a + "." + b
  {
    var padded := Padded(coef, places);
    var k := |padded| - places;
    a, b := padded[..k], padded[k..];
    Rejoin(padded, k);
    NumberOfText(coef);
    PadInteger(DigitText(coef), places);
    PadNumber(DigitText(coef), places);
  }

  lemma FractionRoundTrip(d: Dec)
    requires d.exp < 0
    ensures Parse(Format(d)) == Some(d)
  {
    var a, b := FractionDigits(d.coef, -d.exp);
    ParseParts(if d.neg then "-" else "", a, b);
  }

  /** Equal texts stand for equal values, so a trace of texts determines the values it records. */
  lemma TextDeterminesValue(c: Dec, d: Dec)
    requires Format(c) == Format(d)
    ensures V(c) == V(d)
  {
    RoundTrip(c);
    RoundTrip(d);
  }

  // ----- which texts are literals -----

  /** Digits without a superfluous leading zero. */
  predicate IsWhole(a: string) {
    a == "0" || (a != "" && AllDigits(a) && a[0] != '0')
  }

  /** s is a sign, whole digits and, with a point before it, a fraction that is not empty. */
  predicate IsLiteral(s: string, sign: string, whole: string, fraction: string) {
    IsSign(sign) && IsWhole(whole) && AllDigits(fraction)
    && s == sign + (if fraction == "" then whole else whole + "." + fraction)
  }

  lemma LiteralParses(s: string, sign: string, whole: string, fraction: string)
    requires IsLiteral(s, sign, whole, fraction)
    ensures Parse(s) == Some(Dec(sign == "-", Number(whole + fraction), 0 - |fraction|))
  {
    if fraction == "" {
      ParseWhole(sign, whole);
      assert whole + fraction == whole;
    } else {
      ParseParts(sign, whole, fraction);
    }
  }

  lemma {:induction false} FindFinds(c: char, s: string)
    requires Find(c, s) < |s|
    ensures s[Find(c, s)] == c
  {
    if s[0] != c { FindFinds(c, s[1..]); }
  }

  lemma ParsedIsLiteral(s: string) returns (sign: string, whole: string, fraction: string)
    requires Parse(s).Some?
    ensures IsLiteral(s, sign, whole, fraction)
  {
    var u := Unsigned(s);
    var dot := Find('.', u);
    sign := if u == s then "" else s[..1];
    assert s == sign + u;
    if dot >= |u| {
      whole, fraction := u, "";
    } else {
      FindFinds('.', u);
      whole, fraction := u[..dot], u[dot + 1..];
      assert u == whole + "." + fraction;
    }
  }

  /** Exactly the texts of the literal pattern are read, and as the numbers that they write down. */
  lemma ParsesIff(s: string)
    ensures Parse(s).Some? <==> exists sign, whole, fraction :: IsLiteral(s, sign, whole, fraction)
    ensures forall sign, whole, fraction :: IsLiteral(s, sign, whole, fraction) ==>
              Parse(s) == Some(Dec(sign == "-", Number(whole + fraction), 0 - |fraction|))
  {
    if Parse(s).Some? {
      var sign, whole, fraction := ParsedIsLiteral(s);
    }
    forall sign, whole, fraction | IsLiteral(s, sign, whole, fraction)
      ensures Parse(s) == Some(Dec(sign == "-", Number(whole + fraction), 0 - |fraction|))
    {
      LiteralParses(s, sign, whole, fraction);
    }
  }

  // ----- the size of literals -----

  lemma {:induction false} NumberBelow(s: string)
    requires AllDigits(s)
    ensures Number(s) < Pow10(|s|)
  {
    if s != "" { NumberBelow(s[..|s| - 1]); }
  }

  lemma {:induction false} FindAtMost(c: char, s: string)
    ensures Find(c, s) <= |s|
  {
    if s != "" { FindAtMost(c, s[1..]); }
  }

  /** A literal of at most 128 characters keeps all its digits within 128 places of the point. */
  lemma LiteralIsValid(s: string)
    requires |s| <= 128 && Parse(s).Some?
    ensures ValidLiteral(Parse(s).value)
  {
    var u := Unsigned(s);
    var dot := Find('.', u);
    FindAtMost('.', u);
    if dot >= |u| {
      NumberBelow(u);
      DigitsAtMost(Number(u), |u|);
    } else {
      var digits := u[..dot] + u[dot + 1..];
      NumberBelow(digits);
      DigitsAtMost(Number(digits), |digits|);
    }
  }
}
