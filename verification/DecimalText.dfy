/** BigDecimal printing and parsing: the runtime's printer and parser, and the query layer's own printer,
    which works on the stored text of the coefficient. */
module DecimalText {
  import opened ChainModel
  import opened BigDecimal

  // ----- digits -----

  function DigitChar(d: nat): char
    requires d < 10
  {
    ('0' as int + d) as char
  }

  predicate IsDigit(c: char) {
    '0' <= c <= '9'
  }

  function DigitValue(c: char): nat
    requires IsDigit(c)
  {
    c as int - '0' as int
  }

  predicate AllDigits(s: string) {
    forall c :: c in s ==> IsDigit(c)
  }

  /** The decimal text of a natural number. */
  function NatText(m: nat): string {
    if m < 10 then [DigitChar(m)] else NatText(m / 10) + [DigitChar(m % 10)]
  }

  function IntText(x: int): string {
    if x < 0 then "-" + NatText(-x) else NatText(x)
  }

  /** The number a string of digits denotes; the empty string denotes zero. */
  function NatValue(s: string): nat
    requires AllDigits(s)
  {
    if s == "" then 0 else 10 * NatValue(s[..|s| - 1]) + DigitValue(s[|s| - 1])
  }

  function Zeros(n: nat): string {
    if n == 0 then "" else Zeros(n - 1) + "0"
  }

  // ----- the runtime's printer -----

  function DropZeros(s: string): string {
    if s != "" && s[|s| - 1] == '0' && '.' in s then DropZeros(s[..|s| - 1]) else s
  }

  /** Drops trailing zeros of a fraction, then the point if nothing is left of it. */
  function DropFraction(s: string): string {
    var t := DropZeros(s);
    if t != "" && t[|t| - 1] == '.' then t[..|t| - 1] else t
  }

  /** A magnitude with `places` digits after the point. */
  function PointText(m: nat, places: nat): string {
    var text := NatText(m);
    if places >= |text| then "0." + Zeros(places - |text|) + text
    else text[..|text| - places] + "." + text[|text| - places..]
  }

  /** Exponents outside 64 bits are an error, and so is the one whose negation is not a 64-bit number. */
  function FormatBigDecimal(d: Dec): Result<string> {
    if !FitsI64(d.exp) || !FitsI64(-d.exp) then Err
    else if d.exp == 0 then Ok(IntText(d.digits))
    else
      var sign := if d.digits < 0 then "-" else "";
      if d.exp > 0 then Ok(sign + NatText(Abs(d.digits)) + Zeros(d.exp))
      else Ok(sign + DropFraction(PointText(Abs(d.digits), -d.exp)))
  }

  // ----- the query layer's printer -----

  /** Works on the coefficient's text; it does not drop zeros. */
  function QueryFormat(digits: int, exp: int): string
    requires FitsI64(exp) && FitsI64(-exp)
  {
    if exp == 0 then IntText(digits)
    else if exp > 0 then IntText(digits) + Zeros(exp)
    else (if digits < 0 then "-" else "") + PointText(Abs(digits), -exp)
  }

  // ----- the parser -----

  predicate IsSpace(c: char) {
    c == ' ' || c == '\t' || c == '\n' || c == '\r'
  }

  function TrimStart(s: string): string {
    if s != "" && IsSpace(s[0]) then TrimStart(s[1..]) else s
  }

  function TrimEnd(s: string): string {
    if s != "" && IsSpace(s[|s| - 1]) then TrimEnd(s[..|s| - 1]) else s
  }

  /** The index of the first character in `set`, or the length. */
  function Find(s: string, chars: string): (i: nat)
    ensures i <= |s|
    ensures forall k :: 0 <= k < i ==> s[k] !in chars
    ensures i < |s| ==> s[i] in chars
  {
    if s == "" || s[0] in chars then 0 else 1 + Find(s[1..], chars)
  }

  function ParseI64(s: string): Result<int> {
    var body := if s != "" && (s[0] == '-' || s[0] == '+') then s[1..] else s;
    if body == "" || !AllDigits(body) then Err
    else
      var v := if s[0] == '-' then 0 - NatValue(body) else NatValue(body);
      if FitsI64(v) then Ok(v) else Err
  }

  /** Digits with an optional point, as a coefficient and a count of fractional digits. */
  function ParseMantissa(s: string): Result<(nat, nat)> {
    var point := Find(s, ".");
    var whole, fractional := s[..point], if point < |s| then s[point + 1..] else "";
    if whole == "" && fractional == "" then Err
    else if !AllDigits(whole) || !AllDigits(fractional) then Err
    else
      assert AllDigits(whole + fractional);
      Ok((NatValue(whole + fractional), |fractional|))
  }

  function ParseBigDecimal(value: string): Result<Dec> {
    ParseTrimmed(TrimEnd(TrimStart(value)))
  }

  function ParseTrimmed(s: string): Result<Dec> {
    if s == "" then Err
    else
      var mark := Find(s, "eE");
      var exponent := if mark < |s| then ParseI64(s[mark + 1..]) else Ok(0);
      var text := s[..mark];
      Combine(text != "" && text[0] == '-', ParseMantissa(Unsigned(text)), exponent)
  }

  function Unsigned(text: string): string {
    if text != "" && (text[0] == '-' || text[0] == '+') then text[1..] else text
  }

  function Combine(negative: bool, mantissa: Result<(nat, nat)>, exponent: Result<int>): Result<Dec> {
    if exponent.Err? || mantissa.Err? then Err
    else if mantissa.value.0 == 0 then Ok(ZERO)
    else if !FitsI64(mantissa.value.1) || !FitsI64(exponent.value - mantissa.value.1) then Err
    else
      var digits := if negative then 0 - mantissa.value.0 else mantissa.value.0;
      Ok(Normalize(Dec(digits, exponent.value - mantissa.value.1)))
  }

  // ----- digits read back -----

  lemma {:induction false} NatTextDigits(m: nat)
    ensures NatText(m) != "" && AllDigits(NatText(m)) && NatValue(NatText(m)) == m && |NatText(m)| == NumDigits(m)
    ensures NatText(m)[|NatText(m)| - 1] == DigitChar(m % 10)
  {
    if m >= 10 {
      NatTextDigits(m / 10);
      assert NatText(m)[..|NatText(m)| - 1] == NatText(m / 10);
    }
  }

  lemma {:induction false} ZerosDigits(n: nat)
    ensures |Zeros(n)| == n && AllDigits(Zeros(n)) && NatValue(Zeros(n)) == 0
  {
    if n > 0 {
      ZerosDigits(n - 1);
      assert Zeros(n)[..n - 1] == Zeros(n - 1);
    }
  }

  /** Appending zeros shifts the number; leading zeros do not count. */
  lemma {:induction false} AppendZeros(s: string, n: nat)
    requires AllDigits(s)
    ensures AllDigits(s + Zeros(n)) && NatValue(s + Zeros(n)) == Shift(NatValue(s), n)
  {
    if n == 0 {
      assert s + Zeros(0) == s;
    } else {
      AppendZeros(s, n - 1);
      assert s + Zeros(n) == (s + Zeros(n - 1)) + "0";
      AppendZero(s + Zeros(n - 1), s + Zeros(n));
    }
  }

  lemma AppendZero(t: string, s: string)
    requires AllDigits(t) && s == t + "0"
    ensures AllDigits(s) && NatValue(s) == 10 * NatValue(t)
  {
    assert s[..|s| - 1] == t;
  }

  lemma {:induction false} LeadingZeros(z: string, s: string)
    requires AllDigits(z) && AllDigits(s) && NatValue(z) == 0
    ensures AllDigits(z + s) && NatValue(z + s) == NatValue(s)
    decreases |s|
  {
    if s == "" {
      assert z + s == z;
    } else {
      var t := s[..|s| - 1];
      assert forall c :: c in t ==> c in s;
      LeadingZeros(z, t);
      assert (z + s)[..|z + s| - 1] == z + t;
    }
  }

  // ----- the mantissa of a printed number -----

  /** The text denotes `m * 10^exp`. */
  ghost predicate Denotes(s: string, m: nat, exp: int) {
    var r := ParseMantissa(s);
    r.Ok? && SameValue(Dec(r.value.0, 0 - r.value.1), Dec(m, exp))
  }

  lemma FindPoint(a: string, b: string)
    requires AllDigits(a)
    ensures Find(a + "." + b, ".") == |a|
    ensures Find(a, ".") == |a|
  {
    assert (a + "." + b)[|a|] == '.';
    forall k | 0 <= k < |a| ensures (a + "." + b)[k] != '.' && a[k] != '.' { assert a[k] in a; }
  }

  /** Reading `a.b` back. */
  lemma MantissaOf(a: string, b: string)
    requires AllDigits(a) && AllDigits(b) && a != ""
    ensures AllDigits(a + b)
    ensures ParseMantissa(a + "." + b) == Ok((NatValue(a + b), |b|))
    ensures ParseMantissa(a) == Ok((NatValue(a), 0))
  {
    FindPoint(a, b);
    var s := a + "." + b;
    assert s[..|a|] == a && s[|a| + 1..] == b;
    assert a[..|a|] == a && a + "" == a;
  }

  lemma PointShape(m: nat, places: nat) returns (a: string, b: string)
    requires places > 0
    ensures PointText(m, places) == a + "." + b && a != "" && |b| == places
    ensures AllDigits(a) && AllDigits(b) && AllDigits(a + b) && NatValue(a + b) == m
    ensures b[|b| - 1] == DigitChar(m % 10)
  {
    var text := NatText(m);
    NatTextDigits(m);
    if places >= |text| {
      a, b := PaddedShape(m, places, text);
    } else {
      var n := |text| - places;
      a, b := text[..n], text[n..];
      CutText(text, n);
    }
  }

  lemma PaddedShape(m: nat, places: nat, text: string) returns (a: string, b: string)
    requires text == NatText(m) && AllDigits(text) && text != "" && NatValue(text) == m && places >= |text|
    ensures PointText(m, places) == a + "." + b && a != "" && |b| == places
    ensures AllDigits(a) && AllDigits(b) && AllDigits(a + b) && NatValue(a + b) == m
    ensures b[|b| - 1] == text[|text| - 1]
  {
    var n := places - |text|;
    a, b := "0", Zeros(n) + text;
    PaddedText(Zeros(n), text, n, m);
    PaddedPoint(Zeros(n), text);
  }

  lemma PaddedPoint(zeros: string, text: string)
    ensures "0." + zeros + text == "0" + "." + (zeros + text)
  {
  }

  lemma CutText(text: string, n: nat)
    requires AllDigits(text) && n < |text|
    ensures AllDigits(text[..n]) && AllDigits(text[n..]) && text[..n] + text[n..] == text
    ensures text[n..][|text| - n - 1] == text[|text| - 1]
  {
    DigitsPrefix(text, n);
    forall c | c in text[n..] ensures IsDigit(c) { assert c in text; }
  }

  lemma PaddedText(zeros: string, text: string, n: nat, m: nat)
    requires zeros == Zeros(n) && AllDigits(text) && NatValue(text) == m
    ensures text != "" ==> (zeros + text)[|zeros + text| - 1] == text[|text| - 1]
    ensures |zeros| == n && AllDigits(zeros + text)
    ensures AllDigits("0" + (zeros + text)) && NatValue("0" + (zeros + text)) == m
  {
    ZerosDigits(n);
    LeadingZeros(zeros, text);
    assert "0"[..0] == "" && NatValue("0") == 0;
    LeadingZeros("0", zeros + text);
  }

  lemma LastZero(s: string, t: string)
    requires AllDigits(s) && s != "" && s[|s| - 1] == '0' && t == s[..|s| - 1]
    ensures AllDigits(t) && NatValue(s) == 10 * NatValue(t)
  {
    assert forall c :: c in t ==> c in s;
  }

  lemma TenTimes(x: nat, f: int, g: int)
    requires f == g + 1
    ensures SameValue(Dec(x, f), Dec(10 * x, g))
  {
    assert Shift(x, 1) == 10 * Shift(x, 0) && Shift(10 * x, 0) == 10 * x;
  }

  /** Dropping a trailing zero of the fraction does not change what the text denotes. */
  lemma DropOneZero(a: string, b: string, c: string)
    requires AllDigits(a) && AllDigits(b) && a != "" && b != "" && b[|b| - 1] == '0' && c == b[..|b| - 1]
    ensures AllDigits(c) && AllDigits(a + b) && AllDigits(a + c)
    ensures SameValue(Dec(NatValue(a + c), -|c|), Dec(NatValue(a + b), -|b|))
  {
    OneZeroLess(a, b, c, |b| - 1);
    FewerPlaces(NatValue(a + c), NatValue(a + b), |c|, |b|);
  }

  lemma OneZeroLess(a: string, b: string, c: string, n: nat)
    requires AllDigits(a) && AllDigits(b) && n == |b| - 1 && b[n] == '0' && c == b[..n]
    ensures AllDigits(c) && AllDigits(a + b) && AllDigits(a + c) && NatValue(a + b) == 10 * NatValue(a + c)
  {
    DigitsPrefix(b, n);
    DigitsBoth(a, b);
    assert a + c == (a + b)[..|a + b| - 1] && (a + b)[|a + b| - 1] == '0';
    LastZero(a + b, a + c);
  }

  lemma FewerPlaces(x: nat, y: nat, f: int, g: int)
    requires y == 10 * x && g == f + 1
    ensures SameValue(Dec(x, -f), Dec(y, -g))
  {
    TenTimes(x, -f, -g);
  }

  lemma DigitsPrefix(s: string, n: nat)
    requires AllDigits(s) && n <= |s|
    ensures AllDigits(s[..n])
  {
    forall c | c in s[..n] ensures IsDigit(c) { assert c in s; }
  }

  lemma DigitsBoth(a: string, b: string)
    requires AllDigits(a) && AllDigits(b)
    ensures AllDigits(a + b)
  {
  }

  /** What is left of `a.b` when zeros and a bare point are dropped. */
  ghost predicate KeptFraction(t: string, a: string, b: string, m: nat, exp: int) {
    && Denotes(t, m, exp) && Plain(t) && a <= t && ParseMantissa(t).value.1 <= |b|
  }

  lemma DropNothing(a: string, b: string, m: nat, exp: int)
    requires AllDigits(a) && AllDigits(b) && AllDigits(a + b) && a != "" && b != "" && b[|b| - 1] != '0'
    requires SameValue(Dec(NatValue(a + b), -|b|), Dec(m, exp))
    ensures DropFraction(a + "." + b) == a + "." + b && KeptFraction(a + "." + b, a, b, m, exp)
  {
    DropFixed(a, b);
    KeptWhole(a, b, m, exp);
  }

  lemma DropFixed(a: string, b: string)
    requires AllDigits(b) && b != "" && b[|b| - 1] != '0'
    ensures DropFraction(a + "." + b) == a + "." + b
  {
    var s := a + "." + b;
    assert s[|s| - 1] == b[|b| - 1] && b[|b| - 1] in b;
    assert DropZeros(s) == s;
  }

  lemma KeptWhole(a: string, b: string, m: nat, exp: int)
    requires AllDigits(a) && AllDigits(b) && AllDigits(a + b) && a != ""
    requires SameValue(Dec(NatValue(a + b), -|b|), Dec(m, exp))
    ensures KeptFraction(a + "." + b, a, b, m, exp)
  {
    MantissaOf(a, b);
    assert a <= a + "." + b;
    PlainPoint(a, b);
  }

  lemma PlainPoint(a: string, b: string)
    requires AllDigits(a) && AllDigits(b)
    ensures Plain(a + "." + b)
  {
  }

  lemma DropPoint(a: string, m: nat, exp: int)
    requires AllDigits(a) && a != "" && SameValue(Dec(NatValue(a), 0), Dec(m, exp))
    ensures DropFraction(a + ".") == a && KeptFraction(a, a, "", m, exp)
  {
    var s := a + ".";
    assert s[|s| - 1] == '.' && s[..|s| - 1] == a;
    MantissaOf(a, "");
  }

  lemma DropStep(a: string, b: string)
    requires b != "" && b[|b| - 1] == '0'
    ensures DropFraction(a + "." + b) == DropFraction(a + "." + b[..|b| - 1])
  {
    var s := a + "." + b;
    assert s[|a|] == '.' && s[|s| - 1] == '0';
    assert s[..|s| - 1] == a + "." + b[..|b| - 1];
  }

  /** Dropping all trailing zeros, and the point, keeps the value. */
  lemma {:induction false} DropKeeps(a: string, b: string, m: nat, exp: int)
    requires AllDigits(a) && AllDigits(b) && AllDigits(a + b) && a != ""
    requires SameValue(Dec(NatValue(a + b), -|b|), Dec(m, exp))
    ensures KeptFraction(DropFraction(a + "." + b), a, b, m, exp)
    decreases |b|
  {
    if b == "" {
      assert a + "." + b == a + "." && a + b == a;
      DropPoint(a, m, exp);
    } else if b[|b| - 1] == '0' {
      var c := b[..|b| - 1];
      DropOneZero(a, b, c);
      DropStep(a, b);
      SameValueTrans(Dec(NatValue(a + c), -|c|), Dec(NatValue(a + b), -|b|), Dec(m, exp));
      DropKeeps(a, c, m, exp);
    } else {
      DropNothing(a, b, m, exp);
    }
  }

  lemma SameValueTrans(x: Dec, y: Dec, z: Dec)
    requires SameValue(x, y) && SameValue(y, z)
    ensures SameValue(x, z)
  {
    var k := Min(Min(x.exp, y.exp), z.exp);
    CompareAt(x, y, k);
    CompareAt(y, z, k);
    CompareAt(x, z, k);
  }

  /** Nothing but digits and points. */
  ghost predicate Plain(s: string) {
    forall c :: c in s ==> IsDigit(c) || c == '.'
  }

  // ----- the whole text -----

  function Signed(negative: bool, m: int): int {
    if negative then -m else m
  }

  /** A sign and a plain, nonempty text that starts with a digit is parsed by its mantissa. */
  lemma ParseSigned(negative: bool, sign: string, body: string, u: nat, f: nat, g: int, m: nat, exp: int)
    requires body != "" && IsDigit(body[0]) && Plain(body) && ParseMantissa(body) == Ok((u, f)) && FitsI64(f)
    requires sign == (if negative then "-" else "") && g + f == 0 && SameValue(Dec(u, g), Dec(m, exp))
    ensures ParseBigDecimal(sign + body) == Ok(Normalize(Dec(Signed(negative, m), exp)))
  {
    PlainParsed(sign + body, sign, body);
    Combined(negative, u, f, g);
    NormalizedSign(negative, u, g, m, exp);
  }

  lemma Combined(negative: bool, u: nat, f: nat, g: int)
    requires FitsI64(f) && g + f == 0
    ensures Combine(negative, Ok((u, f)), Ok(0)) == Ok(if u == 0 then ZERO else Normalize(Dec(Signed(negative, u), g)))
  {
  }

  lemma PlainParsed(s: string, sign: string, body: string)
    requires s == sign + body && (sign == "-" || sign == "") && body != "" && IsDigit(body[0]) && Plain(body)
    ensures ParseBigDecimal(s) == Combine(sign == "-", ParseMantissa(body), Ok(0))
  {
    PlainUntrimmed(s, sign, body);
    SignRead(sign, body, s);
    assert s[..|s|] == s;
    Parsed(s, |s|, s, Ok(0), sign == "-", body);
  }

  lemma SignRead(sign: string, body: string, text: string)
    requires (sign == "" || sign == "-" || sign == "+") && body != "" && IsDigit(body[0]) && text == sign + body
    ensures text != "" && Unsigned(text) == body && (text[0] == '-' <==> sign == "-")
  {
    if sign == "" {
      assert text == body;
    } else {
      assert text[1..] == body && text[0] == sign[0];
    }
  }

  /** The parser's parts: what stands before the exponent mark, and the exponent. */
  lemma Parsed(s: string, mark: nat, text: string, exponent: Result<int>, negative: bool, body: string)
    requires s != "" && mark == Find(s, "eE") && text == s[..mark] && text != ""
    requires exponent == if mark < |s| then ParseI64(s[mark + 1..]) else Ok(0)
    requires Unsigned(text) == body && (text[0] == '-' <==> negative)
    ensures ParseTrimmed(s) == Combine(negative, ParseMantissa(body), exponent)
  {
  }

  lemma NormalizedSign(negative: bool, u: int, g: int, m: int, exp: int)
    requires SameValue(Dec(u, g), Dec(m, exp))
    ensures Normalize(Dec(Signed(negative, m), exp)) == if u == 0 then ZERO else Normalize(Dec(Signed(negative, u), g))
  {
    var x, y := Dec(u, g), Dec(m, exp);
    SameZero(x, y);
    if negative {
      NegateValue(x, y);
      NormalizeValue(Dec(-u, g), Dec(-m, exp));
    } else {
      NormalizeValue(x, y);
    }
  }

  lemma PlainUntrimmed(s: string, sign: string, body: string)
    requires s == sign + body && (sign == "-" || sign == "") && body != "" && Plain(body)
    ensures TrimEnd(TrimStart(s)) == s && Find(s, "eE") == |s|
  {
    assert s[|s| - 1] == body[|body| - 1] && body[|body| - 1] in body;
    assert sign == "" ==> s[0] == body[0] && body[0] in body;
    NoExponent(s, sign, body);
  }

  lemma NoExponent(s: string, sign: string, body: string)
    requires s == sign + body && (sign == "-" || sign == "") && Plain(body)
    ensures Find(s, "eE") == |s|
  {
    forall k | 0 <= k < |s|
      ensures s[k] !in "eE"
    {
      if |sign| <= k { assert s[k] == body[k - |sign|] && body[k - |sign|] in body; }
    }
  }

  lemma SameZero(x: Dec, y: Dec)
    requires SameValue(x, y)
    ensures x.digits == 0 <==> y.digits == 0
  {
    var k := Min(x.exp, y.exp);
    ShiftAbs(x.digits, x.exp - k);
    ShiftAbs(y.digits, y.exp - k);
  }

  lemma NegateValue(x: Dec, y: Dec)
    requires SameValue(x, y)
    ensures SameValue(Dec(-x.digits, x.exp), Dec(-y.digits, y.exp))
  {
    var k := Min(x.exp, y.exp);
    ShiftNeg(x.digits, x.exp - k);
    ShiftNeg(y.digits, y.exp - k);
  }

  lemma {:induction false} DropZerosShorter(s: string)
    ensures |DropZeros(s)| <= |s|
  {
    if s != "" && s[|s| - 1] == '0' && '.' in s { DropZerosShorter(s[..|s| - 1]); }
  }

  /** The text is an unsigned number's, with at most `places` fractional digits, and denotes `m * 10^exp`. */
  ghost predicate NumberText(s: string, m: nat, exp: int, places: nat) {
    && s != "" && IsDigit(s[0]) && Plain(s)
    && Denotes(s, m, exp) && ParseMantissa(s).value.1 <= places
  }

  lemma ShiftDenotes(v: nat, m: nat, n: nat)
    requires v == Shift(m, n)
    ensures SameValue(Dec(v, 0), Dec(m, n))
  {
  }

  lemma DigitsPlain(s: string)
    requires AllDigits(s) && s != ""
    ensures IsDigit(s[0]) && Plain(s)
  {
    assert s[0] in s;
  }

  /** A magnitude's text reads back as the magnitude. */
  lemma WholeText(m: nat, n: nat, s: string)
    requires s == NatText(m) + Zeros(n)
    ensures NumberText(s, m, n, 0)
  {
    NatTextDigits(m);
    AppendZeros(NatText(m), n);
    DigitsPlain(s);
    MantissaOf(s, "");
    ShiftDenotes(NatValue(s), m, n);
  }

  lemma FractionText(m: nat, places: nat, exp: int, s: string)
    requires places > 0 && exp + places == 0 && s == DropFraction(PointText(m, places))
    ensures NumberText(s, m, exp, places)
  {
    var a, b := PointShape(m, places);
    DropKeeps(a, b, m, exp);
    assert a[0] in a;
  }

  function SignText(x: int): string {
    if x < 0 then "-" else ""
  }

  /** The unsigned part of what the runtime prints. */
  function BodyText(d: Dec): string {
    if d.exp >= 0 then NatText(Abs(d.digits)) + Zeros(d.exp) else DropFraction(PointText(Abs(d.digits), -d.exp))
  }

  lemma FormatShape(d: Dec)
    requires FitsI64(d.exp) && FitsI64(-d.exp)
    ensures FormatBigDecimal(d) == Ok(SignText(d.digits) + BodyText(d))
  {
    var m := Abs(d.digits);
    if d.exp == 0 {
      assert NatText(m) + Zeros(0) == NatText(m);
      assert IntText(d.digits) == SignText(d.digits) + NatText(m);
    } else if d.exp > 0 {
      assert SignText(d.digits) + NatText(m) + Zeros(d.exp) == SignText(d.digits) + (NatText(m) + Zeros(d.exp));
    } else {
      var fraction := DropFraction(PointText(m, -d.exp));
      assert FormatBigDecimal(d) == Ok((if d.digits < 0 then "-" else "") + fraction);
    }
  }

  /** Parsing undoes printing: whatever is printed is read back as the normalized number. */
  lemma ParseFormat(d: Dec)
    ensures FormatBigDecimal(d).Ok? <==> FitsI64(d.exp) && FitsI64(-d.exp)
    ensures FormatBigDecimal(d).Ok? ==> ParseBigDecimal(FormatBigDecimal(d).value) == Ok(Normalize(d))
  {
    if FormatBigDecimal(d).Ok? {
      FormatShape(d);
      var body, m := BodyText(d), Abs(d.digits);
      var u, f := BodyReads(d, body, m);
      var g: int := f;
      ParseSigned(d.digits < 0, SignText(d.digits), body, u, f, -g, m, d.exp);
      SignedAbs(d, m);
    }
  }

  lemma SignedAbs(d: Dec, m: int)
    requires m == Abs(d.digits)
    ensures Dec(Signed(d.digits < 0, m), d.exp) == d
  {
  }

  lemma BodyReads(d: Dec, body: string, m: nat) returns (u: nat, f: nat)
    requires FitsI64(d.exp) && FitsI64(-d.exp) && body == BodyText(d) && m == Abs(d.digits)
    ensures body != "" && IsDigit(body[0]) && Plain(body)
    ensures ParseMantissa(body) == Ok((u, f)) && FitsI64(f) && SameValue(Dec(u, 0 - f), Dec(m, d.exp))
  {
    if d.exp >= 0 {
      WholeText(m, d.exp, body);
    } else {
      FractionText(m, -d.exp, d.exp, body);
    }
    u, f := ParseMantissa(body).value.0, ParseMantissa(body).value.1;
  }

  // ----- scientific notation -----

  /** A printed integer is read back if it has 64 bits. */
  lemma SignedNumber(x: int)
    ensures ParseI64(IntText(x)) == (if -I64_LIMIT <= x < I64_LIMIT then Ok(x) else Err)
    ensures IntText(x) != "" && IsDigit(IntText(x)[|IntText(x)| - 1])
  {
    var m := Abs(x);
    var text := NatText(m);
    NatTextDigits(m);
    assert text[0] in text && text[|text| - 1] in text;
    if x < 0 { NegativeNumber(text, m); } else { PositiveNumber(text, m); }
  }

  lemma PositiveNumber(text: string, m: nat)
    requires text != "" && AllDigits(text) && NatValue(text) == m
    ensures ParseI64(text) == if FitsI64(m) then Ok(m) else Err
  {
    assert text[0] in text;
  }

  lemma NegativeNumber(text: string, m: nat)
    requires text != "" && AllDigits(text) && NatValue(text) == m
    ensures ParseI64("-" + text) == if FitsI64(0 - m) then Ok(0 - m) else Err
  {
    assert ("-" + text)[1..] == text;
  }

  /** Where a text of sign, digits and points ends and its exponent starts. */
  lemma MarkFound(text: string, mark: char, tail: string)
    requires (mark == 'e' || mark == 'E') && text != "" && tail != "" && IsDigit(tail[|tail| - 1])
    requires forall c :: c in text ==> IsDigit(c) || c == '.' || c == '-' || c == '+'
    ensures var s := text + [mark] + tail;
            TrimEnd(TrimStart(s)) == s && Find(s, "eE") == |text| && s[..|text|] == text && s[|text| + 1..] == tail
  {
    var s := text + [mark] + tail;
    assert s[|text|] == mark && s[0] == text[0] && text[0] in text && s[|s| - 1] == tail[|tail| - 1];
    forall k | 0 <= k < |text| ensures s[k] !in "eE" { assert s[k] == text[k] && text[k] in text; }
  }

  /** The number with coefficient `m`, of which `f` digits are fractional, times `10^x`; an exponent out
      of range is an error. */
  function Scientific(negative: bool, m: nat, f: nat, x: int): Result<Dec> {
    if m == 0 then Ok(ZERO)
    else if !FitsI64(x - f) then Err
    else Ok(Normalize(Dec(if negative then 0 - m else m, x - f)))
  }

  /** Digits, with or without a point, before it or behind it or both. */
  predicate Mantissa(body: string, a: string, b: string) {
    AllDigits(a) && AllDigits(b) && a + b != "" && (body == a + "." + b || (b == "" && body == a))
  }

  lemma MantissaReads(body: string, a: string, b: string)
    requires Mantissa(body, a, b)
    ensures body != "" && (IsDigit(body[0]) || body[0] == '.') && AllDigits(a + b)
    ensures ParseMantissa(body) == Ok((NatValue(a + b), |b|))
    ensures forall c :: c in body ==> IsDigit(c) || c == '.'
  {
    if a == "" {
      assert body == "." + b;
      FindPoint(a, b);
      assert body[..0] == "" && body[1..] == b && a + b == b;
    } else {
      MantissaOf(a, b);
      assert a[0] in a && body[0] == a[0];
      assert a + "" == a;
    }
  }

  lemma SignedRead(sign: string, body: string, text: string)
    requires (sign == "" || sign == "-" || sign == "+") && text == sign + body
    requires body != "" && body[0] != '-' && body[0] != '+'
    ensures text != "" && Unsigned(text) == body && (text[0] == '-' <==> sign == "-")
  {
    if sign == "" { assert text == body; } else { assert text[1..] == body && text[0] == sign[0]; }
  }

  /** Digits with or without a point, an optional sign, and an exponent that is itself read as a number: the
      text is read as the number it denotes. */
  lemma ParseScientificText(sign: string, body: string, a: string, b: string, mark: char, tail: string, x: int,
                            text: string, s: string)
    requires (sign == "" || sign == "-" || sign == "+") && (mark == 'e' || mark == 'E')
    requires Mantissa(body, a, b) && ParseI64(tail) == Ok(x) && FitsI64(|b|)
    requires text == sign + body && s == text + [mark] + tail
    ensures AllDigits(a + b) && ParseBigDecimal(s) == Scientific(sign == "-", NatValue(a + b), |b|, x)
  {
    MantissaReads(body, a, b);
    SignedRead(sign, body, text);
    TailDigit(tail);
    MarkFound(text, mark, tail);
    Parsed(s, |text|, text, Ok(x), sign == "-", body);
    CombinedAt(sign == "-", NatValue(a + b), |b|, x);
  }

  lemma TailDigit(tail: string)
    requires ParseI64(tail).Ok?
    ensures tail != "" && IsDigit(tail[|tail| - 1])
  {
    var body := if tail != "" && (tail[0] == '-' || tail[0] == '+') then tail[1..] else tail;
    assert body[|body| - 1] in body;
  }

  /** Without an exponent it is the number with exponent zero. */
  lemma ParseDecimalText(sign: string, body: string, a: string, b: string, text: string)
    requires (sign == "" || sign == "-" || sign == "+") && Mantissa(body, a, b) && FitsI64(|b|) && text == sign + body
    ensures AllDigits(a + b) && ParseBigDecimal(text) == Scientific(sign == "-", NatValue(a + b), |b|, 0)
  {
    MantissaReads(body, a, b);
    SignedRead(sign, body, text);
    NoMark(text);
    Parsed(text, |text|, text, Ok(0), sign == "-", body);
    CombinedAt(sign == "-", NatValue(a + b), |b|, 0);
  }

  lemma NoMark(text: string)
    requires text != "" && forall c :: c in text ==> IsDigit(c) || c == '.' || c == '-' || c == '+'
    ensures TrimEnd(TrimStart(text)) == text && Find(text, "eE") == |text| && text[..|text|] == text
  {
    assert text[0] in text && text[|text| - 1] in text;
    forall k | 0 <= k < |text| ensures text[k] !in "eE" { assert text[k] in text; }
  }

  /** Digits with a point, an optional sign and an exponent are read as the number they denote. */
  lemma ParseScientific(sign: string, a: string, b: string, mark: char, x: int, text: string, s: string)
    requires (sign == "" || sign == "-" || sign == "+") && (mark == 'e' || mark == 'E')
    requires AllDigits(a) && AllDigits(b) && a != "" && AllDigits(a + b) && FitsI64(x) && FitsI64(|b|)
    requires text == sign + (a + "." + b) && s == text + [mark] + IntText(x)
    ensures ParseBigDecimal(s) == Scientific(sign == "-", NatValue(a + b), |b|, x)
  {
    SignedNumber(x);
    ParseScientificText(sign, a + "." + b, a, b, mark, IntText(x), x, text, s);
  }

  lemma CombinedAt(negative: bool, m: nat, f: nat, x: int)
    requires FitsI64(f)
    ensures Combine(negative, Ok((m, f)), Ok(x)) == Scientific(negative, m, f, x)
  {
  }

  // ----- the two printers -----

  lemma DropFractionFixed(m: nat, places: nat)
    requires places > 0
    ensures DropFraction(PointText(m, places)) == PointText(m, places) <==> m % 10 != 0
  {
    var a, b := PointShape(m, places);
    var s := PointText(m, places);
    assert s[|s| - 1] == b[|b| - 1];
    assert s[|a|] == '.';
    if m % 10 == 0 { DropZerosShorter(s[..|s| - 1]); }
  }

  lemma SamePrefix(p: string, x: string, y: string)
    ensures p + x == p + y <==> x == y
  {
    assert (p + x)[|p|..] == x && (p + y)[|p|..] == y;
  }

  /** The query layer's printer agrees with the runtime's exactly on numbers whose exponent is not
      negative or whose last digit is not zero; so on every normalized number. */
  lemma PrintersAgree(d: Dec)
    requires FitsI64(d.exp) && FitsI64(-d.exp)
    ensures FormatBigDecimal(d) == Ok(QueryFormat(d.digits, d.exp)) <==> d.exp >= 0 || d.digits % 10 != 0
    ensures d == ZERO || Canonical(d) ==> FormatBigDecimal(d) == Ok(QueryFormat(d.digits, d.exp))
  {
    FormatShape(d);
    var m, sign := Abs(d.digits), SignText(d.digits);
    if d.exp < 0 {
      var places: nat := 0 - d.exp;
      FractionPrinters(d, m, places, sign, PointText(m, places));
    } else {
      WholePrinters(d, m, sign);
    }
  }

  /** With a fraction, the query layer keeps the zeros that the runtime drops. */
  lemma FractionPrinters(d: Dec, m: nat, places: nat, sign: string, text: string)
    requires FitsI64(d.exp) && FitsI64(-d.exp) && d.exp < 0 && places + d.exp == 0
    requires m == Abs(d.digits) && sign == SignText(d.digits) && text == PointText(m, places)
    ensures QueryFormat(d.digits, d.exp) == sign + text
    ensures sign + BodyText(d) == sign + text <==> d.digits % 10 != 0
  {
    DroppedPrinter(d.digits, m, places, sign, text, DropFraction(text));
  }

  lemma DroppedPrinter(digits: int, m: nat, places: nat, sign: string, text: string, dropped: string)
    requires m == Abs(digits) && places > 0 && text == PointText(m, places) && dropped == DropFraction(text)
    ensures sign + dropped == sign + text <==> digits % 10 != 0
  {
    DropFractionFixed(m, places);
    LastDigit(digits);
    SamePrefix(sign, dropped, text);
  }

  lemma WholePrinters(d: Dec, m: nat, sign: string)
    requires FitsI64(d.exp) && FitsI64(-d.exp) && d.exp >= 0 && m == Abs(d.digits) && sign == SignText(d.digits)
    ensures QueryFormat(d.digits, d.exp) == sign + BodyText(d)
  {
    assert IntText(d.digits) == sign + NatText(m);
    if d.exp == 0 {
      assert NatText(m) + Zeros(0) == NatText(m);
    } else {
      assert (sign + NatText(m)) + Zeros(d.exp) == sign + (NatText(m) + Zeros(d.exp));
    }
  }

  lemma LastDigit(x: int)
    ensures Abs(x) % 10 == 0 <==> x % 10 == 0
  {
  }
}
