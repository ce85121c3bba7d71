/** Decimal text and numbers as the JavaScript pages see them: `parseInt`,
    `parseFloat`, `Number(...)` coercion, the HTML "valid floating-point
    number" syntax of `<input type="number">`, and `toFixed(2)`.
    Decimal literals with an exponent part are covered; `Infinity` and
    the hexadecimal, octal and binary prefixes are not part of this model.
    Numbers are exact reals, so no binary floating-point rounding happens. */
module Numbers {
  import opened Base
  import Text

  predicate IsDigit(c: char) { '0' <= c <= '9' }

  predicate AllDigits(s: string) {
    forall i :: 0 <= i < |s| ==> IsDigit(s[i])
  }

  function DigitValue(c: char): (d: nat)
    requires IsDigit(c)
    ensures d < 10
  {
    c as int - '0' as int
  }

  function DigitChar(d: nat): (c: char)
    requires d < 10
    ensures IsDigit(c) && DigitValue(c) == d
  {
    ('0' as int + d) as char
  }

  function Pow10(k: nat): (p: nat)
    ensures p >= 1
  {
    if k == 0 then 1 else 10 * Pow10(k - 1)
  }

  /** The value of a string of decimal digits, most significant first. */
  function DigitsValue(s: string): (n: nat)
    requires AllDigits(s)
    ensures n < Pow10(|s|)
  {
    if s == [] then 0
    else 10 * DigitsValue(s[..|s| - 1]) + DigitValue(s[|s| - 1])
  }

  /** Decimal representation of a natural number, without leading zeros. */
  function ShowNat(n: nat): (s: string)
    ensures |s| >= 1 && AllDigits(s)
    ensures n > 0 ==> s[0] != '0'
  {
    if n < 10 then [DigitChar(n)]
    else ShowNat(n / 10) + [DigitChar(n % 10)]
  }

  /** Reading back what `ShowNat` wrote gives the number again. */
  lemma {:induction false} ShowNatValue(n: nat)
    ensures DigitsValue(ShowNat(n)) == n
  {
    if n >= 10 {
      ShowNatValue(n / 10);
      var s := ShowNat(n);
      assert s[..|s| - 1] == ShowNat(n / 10);
    }
  }

  /** The sign a decimal literal or its exponent starts with. */
  datatype Sign = NoSign | Plus | Minus

  function SignText(sign: Sign): string {
    match sign case NoSign => "" case Plus => "+" case Minus => "-"
  }

  /** The longest prefix of a string of the shape
      `[+|-] digits* [. digits*]`, split into its parts. */
  datatype Decimal = Decimal(sign: Sign, intDigits: string, hasDot: bool, fracDigits: string) {

    function Length(): nat {
      (if sign == NoSign then 0 else 1) + |intDigits| + (if hasDot then 1 + |fracDigits| else 0)
    }

    function Render(): string {
      SignText(sign) + intDigits + (if hasDot then "." + fracDigits else "")
    }

    predicate HasDigits() { |intDigits| + |fracDigits| > 0 }

    predicate WellFormed() {
      AllDigits(intDigits) && AllDigits(fracDigits) && (!hasDot ==> fracDigits == [])
    }

    function Value(): real
      requires WellFormed()
    {
      var magnitude := DigitsValue(intDigits) as real
        + DigitsValue(fracDigits) as real / Pow10(|fracDigits|) as real;
      if sign == Minus then -magnitude else magnitude
    }
  }

  /** Scan `[digits*] [. digits*]` from the start of `s` (no sign). */
  function ScanUnsigned(s: string): (d: Decimal)
    ensures d.sign == NoSign && d.WellFormed()
    ensures d.Length() <= |s| && s[..d.Length()] == d.Render()
    ensures var n := d.Length(); n < |s| ==> !IsDigit(s[n])
    ensures var n := d.Length(); !d.hasDot && n < |s| ==> s[n] != '.'
  {
    var a := Text.Leading(s, IsDigit);
    if a < |s| && s[a] == '.' then
      var f := Text.Leading(s[a + 1..], IsDigit);
      DottedScan(s, a, s[a + 1..], f);
      Decimal(NoSign, s[..a], true, s[a + 1..][..f])
    else
      Decimal(NoSign, s[..a], false, [])
  }

  /** The digits before a dot, the dot and the digits after it. */
  lemma DottedScan(s: string, a: nat, rest: string, f: nat)
    requires a < |s| && s[a] == '.' && rest == s[a + 1..] && f <= |rest|
    requires forall k :: 0 <= k < a ==> IsDigit(s[k])
    requires forall k :: 0 <= k < f ==> IsDigit(rest[k])
    requires f < |rest| ==> !IsDigit(rest[f])
    ensures var d := Decimal(NoSign, s[..a], true, rest[..f]);
      && d.WellFormed() && d.Length() == a + 1 + f
      && s[..d.Length()] == d.Render()
      && (d.Length() < |s| ==> !IsDigit(s[d.Length()]))
  {
    assert s[..a + 1 + f] == s[..a] + "." + rest[..f];
  }

  /** Scan the longest decimal prefix of `s`. The scanned text is exactly
      the prefix it renders to, and the scan stops only where the grammar
      cannot continue. */
  function ScanDecimal(s: string): (d: Decimal)
    ensures d.WellFormed()
    ensures d.Length() <= |s| && s[..d.Length()] == d.Render()
    ensures d.sign == NoSign <==> s == [] || (s[0] != '+' && s[0] != '-')
    ensures var n := d.Length(); n < |s| ==> !IsDigit(s[n])
    ensures var n := d.Length(); !d.hasDot && n < |s| ==> s[n] != '.'
  {
    if s != [] && (s[0] == '-' || s[0] == '+') then
      var u := ScanUnsigned(s[1..]);
      SignedScan(s, u);
      Decimal(if s[0] == '-' then Minus else Plus, u.intDigits, u.hasDot, u.fracDigits)
    else
      ScanUnsigned(s)
  }

  /** A sign character followed by an unsigned scan of the rest. */
  lemma SignedScan(s: string, u: Decimal)
    requires s != [] && u.sign == NoSign
    requires u.Length() <= |s| - 1 && s[1..][..u.Length()] == u.Render()
    ensures var d := Decimal(if s[0] == '-' then Minus else Plus, u.intDigits, u.hasDot, u.fracDigits);
      s[0] in "+-" ==> d.Length() == 1 + u.Length() && s[..d.Length()] == d.Render()
  {
    var k := u.Length();
    assert s[..1 + k] == [s[0]] + s[1..][..k];
  }

  /** An exponent part: `e` or `E`, an optional sign and the digits of the
      power of ten. */
  datatype Exponent = Exponent(letter: char, sign: Sign, digits: string) {

    function Length(): nat {
      1 + |SignText(sign)| + |digits|
    }

    function Render(): string {
      [letter] + SignText(sign) + digits
    }

    predicate WellFormed() {
      (letter == 'e' || letter == 'E') && AllDigits(digits) && digits != []
    }

    function Power(): int
      requires WellFormed()
    {
      var n: int := DigitsValue(digits);
      if sign == Minus then -n else n
    }
  }

  /** `s` begins with a complete exponent part: the letter, an optional
      sign, and at least one digit. */
  predicate StartsExponent(s: string) {
    && |s| >= 2 && (s[0] == 'e' || s[0] == 'E')
    && (IsDigit(s[1]) || (|s| >= 3 && (s[1] == '+' || s[1] == '-') && IsDigit(s[2])))
  }

  /** Scan the exponent part at the start of `s`, with all its digits. */
  function ScanExponent(s: string): (e: Option<Exponent>)
    ensures e.Some? <==> StartsExponent(s)
    ensures e.Some? ==> e.value.WellFormed() && e.value.letter == s[0]
    ensures e.Some? ==> e.value.Length() <= |s| && s[..e.value.Length()] == e.value.Render()
    ensures e.Some? && e.value.Length() < |s| ==> !IsDigit(s[e.value.Length()])
  {
    if !StartsExponent(s) then None
    else
      var sign := if s[1] == '+' then Plus else if s[1] == '-' then Minus else NoSign;
      var start := 1 + |SignText(sign)|;
      var n := Text.Leading(s[start..], IsDigit);
      ExponentScan(s, sign, start, n);
      Some(Exponent(s[0], sign, s[start..][..n]))
  }

  /** The letter, the sign text and the digit run make up the prefix. */
  lemma ExponentScan(s: string, sign: Sign, start: nat, n: nat)
    requires StartsExponent(s) && start == 1 + |SignText(sign)| && start <= |s|
    requires s[1..start] == SignText(sign)
    requires n <= |s| - start && forall k :: 0 <= k < n ==> IsDigit(s[start..][k])
    requires n < |s| - start ==> !IsDigit(s[start..][n])
    ensures s[..start + n] == [s[0]] + SignText(sign) + s[start..][..n]
    ensures start + n < |s| ==> !IsDigit(s[start + n])
  {
    assert s[..start] == [s[0]] + s[1..start];
    assert s[..start + n] == s[..start] + s[start..][..n];
  }

  /** A decimal followed by an optional exponent part: the longest text
      JavaScript reads as a decimal literal. */
  datatype Literal = Literal(mantissa: Decimal, exponent: Option<Exponent>) {

    function Length(): nat {
      mantissa.Length() + (if exponent.Some? then exponent.value.Length() else 0)
    }

    function Render(): string {
      mantissa.Render() + (if exponent.Some? then exponent.value.Render() else "")
    }

    predicate WellFormed() {
      mantissa.WellFormed() && (exponent.Some? ==> exponent.value.WellFormed())
    }

    function Value(): real
      requires WellFormed()
    {
      if exponent.None? then mantissa.Value()
      else mantissa.Value() * Scale(exponent.value.Power())
    }
  }

  /** Ten to the power `k`, for any whole `k`. */
  function Scale(k: int): (x: real)
    ensures x > 0.0
    ensures k >= 0 ==> x == Pow10(k) as real
    ensures k < 0 ==> x * Pow10(-k) as real == 1.0
  {
    if k >= 0 then Pow10(k) as real else 1.0 / Pow10(-k) as real
  }

  /** Scan the longest decimal literal at the start of `s`: the decimal,
      then an exponent part when the decimal has a digit and a complete
      exponent part follows it. */
  function ScanLiteral(s: string): (l: Literal)
    ensures l.mantissa == ScanDecimal(s) && l.WellFormed()
    ensures l.Length() <= |s| && s[..l.Length()] == l.Render()
    ensures l.exponent.Some? ==> l.mantissa.HasDigits() && s[l.mantissa.Length()] == l.exponent.value.letter
    ensures l.mantissa.HasDigits() && l.exponent.None? ==> !StartsExponent(s[l.mantissa.Length()..])
    ensures l.Length() < |s| ==> !IsDigit(s[l.Length()])
  {
    var d := ScanDecimal(s);
    var rest := s[d.Length()..];
    if d.HasDigits() && StartsExponent(rest) then
      var e := ScanExponent(rest).value;
      ExponentAfter(s, d, e);
      Literal(d, Some(e))
    else
      PlainLiteral(d);
      Literal(d, None)
  }

  /** Without an exponent part a literal is its decimal. */
  lemma PlainLiteral(d: Decimal)
    ensures Literal(d, None).Length() == d.Length() && Literal(d, None).Render() == d.Render()
  {
    assert d.Render() + "" == d.Render();
  }

  /** The decimal's text followed by the exponent's text is a prefix of `s`. */
  lemma ExponentAfter(s: string, d: Decimal, e: Exponent)
    requires d.Length() <= |s| && s[..d.Length()] == d.Render()
    requires e.Length() <= |s| - d.Length() && s[d.Length()..][..e.Length()] == e.Render()
    requires e.Length() > 0 && e.letter == s[d.Length()..][0]
    requires d.Length() + e.Length() < |s| ==> !IsDigit(s[d.Length()..][e.Length()])
    ensures var l := Literal(d, Some(e));
      && l.Length() <= |s| && s[..l.Length()] == l.Render()
      && s[d.Length()] == e.letter
      && (l.Length() < |s| ==> !IsDigit(s[l.Length()]))
  {
    assert s[..d.Length() + e.Length()] == s[..d.Length()] + s[d.Length()..][..e.Length()];
  }

  /** JavaScript `parseInt(s)` (radix 10): skip leading white space, read an
      optional sign and the longest run of digits; no digits gives `NaN`,
      modelled as `None`. */
  function ParseInt(s: string): (r: Option<int>)
    ensures var d := ScanDecimal(Text.TrimStart(s, Text.JsSpace));
      r.Some? <==> |d.intDigits| > 0
  {
    var d := ScanDecimal(Text.TrimStart(s, Text.JsSpace));
    if |d.intDigits| == 0 then None
    else
      var n: int := DigitsValue(d.intDigits);
      Some(if d.sign == Minus then -n else n)
  }

  /** JavaScript `parseFloat(s)`: skip leading white space and read the
      longest decimal literal; a literal without any digit gives `NaN`. */
  function ParseFloat(s: string): (r: Option<real>)
    ensures var l := ScanLiteral(Text.TrimStart(s, Text.JsSpace));
      r.Some? <==> l.mantissa.HasDigits()
  {
    var l := ScanLiteral(Text.TrimStart(s, Text.JsSpace));
    if l.mantissa.HasDigits() then Some(l.Value()) else None
  }

  /** JavaScript `Number(s)` for a string: white space at both ends is
      ignored, the empty string is 0, and anything else must be one whole
      decimal literal, otherwise `NaN`. */
  function ToNumber(s: string): (r: Option<real>)
    ensures Text.Trim(s, Text.JsSpace) == [] ==> r == Some(0.0)
    ensures var t := Text.Trim(s, Text.JsSpace); var l := ScanLiteral(t);
      t != [] ==> (r.Some? <==> l.mantissa.HasDigits() && l.Length() == |t|)
  {
    var t := Text.Trim(s, Text.JsSpace);
    if t == [] then Some(0.0)
    else
      var l := ScanLiteral(t);
      if l.mantissa.HasDigits() && l.Length() == |t| then Some(l.Value()) else None
  }

  /** The HTML "valid floating-point number" syntax that an
      `<input type="number">` value must have: an optional `-`, then digits,
      or digits followed by `.` and digits, or `.` and digits, then
      optionally an exponent part; nothing else. */
  predicate IsValidFloat(s: string) {
    var l := ScanLiteral(s);
    var d := l.mantissa;
    && l.Length() == |s|
    && d.sign != Plus
    && (|d.intDigits| > 0 || d.hasDot)
    && (d.hasDot ==> |d.fracDigits| > 0)
  }

  /** The value of an `<input type="number">` as the browser reads it for
      constraint validation: `None` when the text is not a valid number. */
  function InputValue(s: string): (r: Option<real>)
    ensures r.Some? <==> IsValidFloat(s)
  {
    if IsValidFloat(s) then Some(ScanLiteral(s).Value()) else None
  }

  /** Text with no exponent letter. */
  predicate NoExponent(s: string) {
    'e' !in s && 'E' !in s
  }

  /** Two-decimal text of a whole number of cents: `ShowNat(c / 100)`, a
      dot, and exactly two digits. */
  function ShowCents(c: nat): (s: string)
    ensures |s| >= 4 && s[|s| - 3] == '.'
    ensures AllDigits(s[..|s| - 3]) && AllDigits(s[|s| - 2..])
  {
    ShowNat(c / 100) + "." + [DigitChar(c % 100 / 10), DigitChar(c % 10)]
  }

  /** JavaScript `x.toFixed(2)` on an exact value: the nearest whole number
      of cents, the upper one on a tie, with the sign written separately. */
  function ToFixed2(x: real): string
  {
    if x < 0.0 then "-" + ShowCents(RoundCents(-x)) else ShowCents(RoundCents(x))
  }

  /** Nearest whole number of cents to a non-negative amount. */
  function RoundCents(x: real): (c: nat)
    requires x >= 0.0
    ensures x * 100.0 - 0.5 < c as real <= x * 100.0 + 0.5
  {
    (x * 100.0 + 0.5).Floor
  }

  /** The digit run of an all-digit string is the whole string. */
  lemma LeadingAllDigits(s: string)
    requires AllDigits(s)
    ensures Text.Leading(s, IsDigit) == |s|
  {
  }

  /** The digit run of `p + t` stops at the end of `p` when `t` starts with
      a non-digit. */
  lemma LeadingDigitsBefore(p: string, t: string)
    requires AllDigits(p)
    requires t != [] && !IsDigit(t[0])
    ensures Text.Leading(p + t, IsDigit) == |p|
  {
    assert forall k :: 0 <= k < |p| ==> (p + t)[k] == p[k];
    assert (p + t)[|p|] == t[0];
  }

  /** An all-digit string scans as an unsigned integer literal. */
  lemma ScanAllDigits(s: string)
    requires AllDigits(s)
    ensures ScanDecimal(s) == Decimal(NoSign, s, false, [])
  {
    if s != [] {
      assert IsDigit(s[0]);
    }
    LeadingAllDigits(s);
    assert s[..|s|] == s;
  }

  /** `digits.digits` scans as itself. */
  lemma ScanPointed(p: string, f: string)
    requires AllDigits(p) && AllDigits(f) && |p| > 0
    ensures ScanDecimal(p + "." + f) == Decimal(NoSign, p, true, f)
  {
    var s := p + "." + f;
    assert s == p + ("." + f);
    assert IsDigit(s[0]);
    assert Text.Leading(s, IsDigit) == |p| by { LeadingDigitsBefore(p, "." + f); }
    assert s[..|p|] == p;
    assert s[|p|..] == "." + f;
    assert ("." + f)[1..] == f;
    LeadingAllDigits(f);
    assert f[..|f|] == f;
  }

  /** The two-digit text of `c % 100` has that value. */
  lemma TwoDigitsValue(c: nat)
    ensures DigitsValue([DigitChar(c % 100 / 10), DigitChar(c % 10)]) == c % 100
  {
    PairValue(c % 100 / 10, c % 10);
    LastTwoDigits(c);
  }

  /** Two digits read as a number. */
  lemma PairValue(hi: nat, lo: nat)
    requires hi < 10 && lo < 10
    ensures DigitsValue([DigitChar(hi), DigitChar(lo)]) == 10 * hi + lo
  {
    var s := [DigitChar(hi), DigitChar(lo)];
    assert s[..1] == [DigitChar(hi)];
    assert s[..1][..0] == [];
  }

  /** The tens and units digits of `c` make up `c % 100`. */
  lemma LastTwoDigits(c: nat)
    ensures 10 * (c % 100 / 10) + c % 10 == c % 100
  {
    var q := c / 100;
    var m := c % 100;
    var h := m / 10;
    var u := m % 10;
    assert c == 100 * q + m;
    assert m == 10 * h + u;
    UnitsDigit(c, 10 * q + h, u);
  }

  /** The remainder by ten is the units digit of any such decomposition. */
  lemma UnitsDigit(c: int, k: int, u: int)
    requires c == 10 * k + u && 0 <= u < 10
    ensures c % 10 == u
  {
  }

  /** Whole units plus a fraction of cents is the amount in cents over 100. */
  lemma CentsSplit(c: nat)
    ensures (c / 100) as real + (c % 100) as real / 100.0 == c as real / 100.0
  {
    assert (c / 100) * 100 + c % 100 == c;
    assert ((c / 100) * 100) as real == (c / 100) as real * 100.0;
  }

  /** The decimal `ShowNat(c / 100).dd` with `dd` the last two digits of
      `c` is worth `c / 100`. */
  lemma CentsDecimalValue(c: nat)
    ensures Decimal(NoSign, ShowNat(c / 100), true, [DigitChar(c % 100 / 10), DigitChar(c % 10)]).Value()
      == c as real / 100.0
  {
    ShowNatValue(c / 100);
    TwoDigitsValue(c);
    TwoPlaceValue(ShowNat(c / 100), [DigitChar(c % 100 / 10), DigitChar(c % 10)], c / 100, c % 100);
    CentsSplit(c);
  }

  /** A decimal with two fraction digits is worth its whole part plus
      the fraction's digits over 100. */
  lemma TwoPlaceValue(p: string, frac: string, q: nat, r: nat)
    requires AllDigits(p) && AllDigits(frac) && |frac| == 2
    requires DigitsValue(p) == q && DigitsValue(frac) == r
    ensures Decimal(NoSign, p, true, frac).WellFormed()
    ensures Decimal(NoSign, p, true, frac).Value() == q as real + r as real / 100.0
  {
    var d := Decimal(NoSign, p, true, frac);
    assert Pow10(2) == 100 by {
      assert Pow10(1) == 10;
    }
    assert d.Value() == q as real + r as real / Pow10(2) as real;
  }

  /** Reading the cents text back with `parseFloat` gives the amount. */
  lemma ParseShowCents(c: nat)
    ensures ParseFloat(ShowCents(c)) == Some(c as real / 100.0)
  {
    var p := ShowNat(c / 100);
    var f := [DigitChar(c % 100 / 10), DigitChar(c % 10)];
    var s := ShowCents(c);
    assert s == p + "." + f;
    CentsDecimalValue(c);
    ParsePointedAs(p, f, c as real / 100.0);
  }

  /** `parseFloat` reads `digits.digits` as the value of that decimal. */
  lemma ParsePointedAs(p: string, f: string, x: real)
    requires AllDigits(p) && AllDigits(f) && |p| > 0
    requires Decimal(NoSign, p, true, f).Value() == x
    ensures ParseFloat(p + "." + f) == Some(x)
  {
    ParsePointed(p, f);
  }

  /** `parseFloat` reads `digits.digits` as that decimal. */
  lemma ParsePointed(p: string, f: string)
    requires AllDigits(p) && AllDigits(f) && |p| > 0
    ensures ParseFloat(p + "." + f) == Some(Decimal(NoSign, p, true, f).Value())
  {
    var s := p + "." + f;
    assert s[0] == p[0];
    ScanPointed(p, f);
    ParseFloatDecimal(s, Decimal(NoSign, p, true, f));
  }

  /** `parseFloat` of a text that starts with a digit and is one whole
      decimal is the decimal's value. */
  lemma ParseFloatDecimal(s: string, d: Decimal)
    requires s != [] && IsDigit(s[0]) && ScanDecimal(s) == d && d.Length() == |s|
    ensures d.WellFormed() && d.HasDigits() && ParseFloat(s) == Some(d.Value())
  {
    NonSpaceFirst(s);
    WholeDecimalLiteral(s);
    assert s[..d.Length()] == d.Render();
    RenderStart(d);
  }

  /** A decimal that covers the whole text leaves no room for an exponent. */
  lemma WholeDecimalLiteral(s: string)
    requires ScanDecimal(s).Length() == |s|
    ensures ScanLiteral(s) == Literal(ScanDecimal(s), None)
  {
    assert s[|s|..] == [];
  }

  /** `toFixed(2)` followed by `parseFloat` returns the amount to within
      half a cent, and exactly when it is a whole number of cents. */
  lemma FixedRoundTrip(x: real)
    requires x >= 0.0
    ensures ParseFloat(ToFixed2(x)).Some?
    ensures var y := ParseFloat(ToFixed2(x)).value;
      x - 0.005 < y <= x + 0.005
    ensures (x * 100.0).Floor as real == x * 100.0 ==> ParseFloat(ToFixed2(x)) == Some(x)
  {
    var c := FixedIsCents(x);
    ParseShowCents(c);
    CentsNear(x, c);
    if (x * 100.0).Floor as real == x * 100.0 {
      ParseExact(x, c);
    }
  }

  /** The text of a whole number of cents reads back as that amount. */
  lemma ParseExact(x: real, c: nat)
    requires ToFixed2(x) == ShowCents(c) && c as real / 100.0 == x
    ensures ParseFloat(ToFixed2(x)) == Some(x)
  {
    ParseShowCents(c);
  }

  /** `toFixed(2)` of a non-negative amount is the text of its rounded
      number of cents. */
  lemma FixedIsCents(x: real) returns (c: nat)
    requires x >= 0.0
    ensures ToFixed2(x) == ShowCents(c)
    ensures x * 100.0 - 0.5 < c as real <= x * 100.0 + 0.5
    ensures (x * 100.0).Floor as real == x * 100.0 ==> c as real / 100.0 == x
  {
    c := RoundCents(x);
    if (x * 100.0).Floor as real == x * 100.0 {
      ExactCents(x);
    }
  }

  /** A whole number of cents within half a cent of `100 x` is within
      half a cent of `x` once divided by 100. */
  lemma CentsNear(x: real, c: nat)
    requires x * 100.0 - 0.5 < c as real <= x * 100.0 + 0.5
    ensures x - 0.005 < c as real / 100.0 <= x + 0.005
  {
  }

  /** Rounding an amount that is already a whole number of cents keeps it. */
  lemma ExactCents(x: real)
    requires x >= 0.0 && (x * 100.0).Floor as real == x * 100.0
    ensures RoundCents(x) as real / 100.0 == x
  {
    var n := (x * 100.0).Floor;
    assert (x * 100.0 + 0.5).Floor == n;
  }

  /** `parseInt` reads back the decimal text of a natural number. */
  lemma ParseIntShowNat(n: nat)
    ensures ParseInt(ShowNat(n)) == Some(n)
  {
    var s := ShowNat(n);
    assert Text.Leading(s, Text.JsSpace) == 0 by { assert IsDigit(s[0]); }
    assert Text.TrimStart(s, Text.JsSpace) == s;
    ScanAllDigits(s);
    ShowNatValue(n);
  }

  /** A valid number as an `<input type="number">` holds it starts with a
      digit, a dot or a minus sign, so no white space is skipped. */
  lemma ValidFloatStart(s: string)
    requires IsValidFloat(s)
    ensures s != [] && (IsDigit(s[0]) || s[0] == '.' || s[0] == '-')
    ensures Text.TrimStart(s, Text.JsSpace) == s
  {
    var d := ScanLiteral(s).mantissa;
    assert d.Length() > 0 && s[..d.Length()] == d.Render();
    assert s[0] == d.Render()[0];
    RenderStart(d);
    NonSpaceFirst(s);
  }

  /** The first character of a non-empty decimal's text. */
  lemma RenderStart(d: Decimal)
    requires d.WellFormed() && d.Length() > 0
    ensures d.Render()[0] == (if d.sign == Minus then '-' else if d.sign == Plus then '+'
      else if d.intDigits != [] then d.intDigits[0] else '.')
    ensures d.sign == NoSign && d.intDigits != [] ==> IsDigit(d.Render()[0])
  {
  }

  /** A text starting with a digit, a dot or a sign has no white space to
      skip. */
  lemma NonSpaceFirst(s: string)
    requires s != [] && (IsDigit(s[0]) || s[0] == '.' || s[0] == '+' || s[0] == '-')
    ensures Text.TrimStart(s, Text.JsSpace) == s
  {
    NumberCharNotSpace(s[0]);
    assert Text.Leading(s, Text.JsSpace) == 0;
  }

  /** Digits, the dot and the signs are not white space. */
  lemma NumberCharNotSpace(c: char)
    requires IsDigit(c) || c == '.' || c == '+' || c == '-'
    ensures !Text.JsSpace(c)
  {
  }

  /** `parseFloat` reads a valid input number exactly as the browser's
      constraint validation does. */
  lemma ParseFloatValid(s: string)
    requires IsValidFloat(s)
    ensures ParseFloat(s) == InputValue(s)
  {
    ValidFloatStart(s);
  }

  /** `Number(...)`, as a comparison with a number applies it, reads a
      valid input number as the browser does: it ends in a digit, so no
      white space is trimmed at either end. */
  lemma ToNumberValid(s: string)
    requires IsValidFloat(s)
    ensures ToNumber(s) == InputValue(s)
  {
    ValidFloatStart(s);
    ValidFloatEnd(s);
    NumberOfLiteral(s);
  }

  /** `Number(...)` of a text that has no white space at either end and is
      one whole literal with digits is the literal's value. */
  lemma NumberOfLiteral(s: string)
    requires s != [] && (IsDigit(s[0]) || s[0] == '.' || s[0] == '-') && IsDigit(s[|s| - 1])
    requires ScanLiteral(s).Length() == |s| && ScanLiteral(s).mantissa.HasDigits()
    ensures ToNumber(s) == Some(ScanLiteral(s).Value())
  {
    NumberCharNotSpace(s[0]);
    NumberCharNotSpace(s[|s| - 1]);
    Text.TrimNoOp(s, Text.JsSpace);
    var l := ScanLiteral(s);
    assert ToNumber(s) == if l.mantissa.HasDigits() && l.Length() == |s| then Some(l.Value()) else None;
  }

  /** A valid input number ends with a digit. */
  lemma ValidFloatEnd(s: string)
    requires IsValidFloat(s)
    ensures s != [] && IsDigit(s[|s| - 1])
  {
    var l := ScanLiteral(s);
    assert s[..|s|] == s;
    LiteralEndsInDigit(l);
  }

  /** A literal whose mantissa ends in a digit when it stands alone has
      text that ends in a digit. */
  lemma LiteralEndsInDigit(l: Literal)
    requires l.WellFormed()
    requires l.exponent.None? ==> if l.mantissa.hasDot then l.mantissa.fracDigits != [] else l.mantissa.intDigits != []
    ensures |l.Render()| == l.Length() > 0 && IsDigit(l.Render()[l.Length() - 1])
  {
    var m := l.mantissa.Render();
    assert |m| == l.mantissa.Length() by { DecimalLength(l.mantissa); }
    if l.exponent.Some? {
      var t := l.exponent.value.Render();
      ExponentEndsInDigit(l.exponent.value);
      assert (m + t)[|m + t| - 1] == t[|t| - 1];
    } else {
      DecimalEndsInDigit(l.mantissa);
      assert l.Render() == m + "";
    }
  }

  lemma DecimalLength(d: Decimal)
    ensures |d.Render()| == d.Length()
  {
  }

  /** An exponent part's text ends in its last digit. */
  lemma ExponentEndsInDigit(e: Exponent)
    requires e.WellFormed()
    ensures |e.Render()| == e.Length() > 0 && IsDigit(e.Render()[e.Length() - 1])
  {
    assert e.Render()[e.Length() - 1] == e.digits[|e.digits| - 1];
  }

  /** A decimal with digits after its dot, or with integer digits and no
      dot, ends in a digit. */
  lemma DecimalEndsInDigit(d: Decimal)
    requires d.WellFormed()
    requires if d.hasDot then d.fracDigits != [] else d.intDigits != []
    ensures |d.Render()| == d.Length() > 0 && IsDigit(d.Render()[d.Length() - 1])
  {
    var r := d.Render();
    if d.hasDot {
      assert r[|r| - 1] == d.fracDigits[|d.fracDigits| - 1];
    } else {
      assert r == SignText(d.sign) + d.intDigits + "";
      assert r[|r| - 1] == d.intDigits[|d.intDigits| - 1];
    }
  }

  /** `parseInt` reads a valid input number without an exponent whose
      value is a whole number of at least one as that whole number: the
      digits after the dot can only be zeros. */
  lemma ParseIntWhole(s: string)
    requires IsValidFloat(s) && NoExponent(s)
    requires InputValue(s).value >= 1.0 && InputValue(s).value == InputValue(s).value.Floor as real
    ensures ParseInt(s) == Some(InputValue(s).value.Floor)
  {
    ValidFloatStart(s);
    WholeDecimal(ScanDecimal(s));
  }

  /** `parseInt` also stops at the dot: "0.1e1" is a valid input number
      worth 1, which `parseInt` reads as 0. */
  lemma ParseIntStopsAtDot()
    ensures IsValidFloat("0.1e1") && InputValue("0.1e1") == Some(1.0)
    ensures ParseInt("0.1e1") == Some(0)
  {
    PointE1Valid();
    PointE1ParseInt();
  }

  lemma PointE1Valid()
    ensures IsValidFloat("0.1e1") && InputValue("0.1e1") == Some(1.0)
  {
    var l := Literal(Decimal(NoSign, "0", true, "1"), Some(Exponent('e', NoSign, "1")));
    LiteralPointE1();
    assert l.Length() == |"0.1e1"|;
    OneTenth();
    ExponentOne();
    assert l.Value() == 1.0;
    LiteralIsValid("0.1e1", l);
  }

  lemma PointE1ParseInt()
    ensures ParseInt("0.1e1") == Some(0)
  {
    ScanPointThenExponent();
    ParseIntDigits("0.1e1", Decimal(NoSign, "0", true, "1"));
    assert DigitsValue("0") == 0 by {
      assert "0"[..0] == [];
    }
  }

  /** `parseInt` stops at the exponent letter: "1e2" is a valid input
      number worth 100, which `parseInt` reads as 1. */
  lemma ParseIntStopsAtExponent()
    ensures IsValidFloat("1e2") && InputValue("1e2") == Some(100.0)
    ensures ParseInt("1e2") == Some(1)
  {
    OneE2Valid();
    OneE2ParseInt();
  }

  lemma OneE2Valid()
    ensures IsValidFloat("1e2") && InputValue("1e2") == Some(100.0)
  {
    LiteralOneE2();
    OneHundred();
    LiteralIsValid("1e2", Literal(Decimal(NoSign, "1", false, []), Some(Exponent('e', NoSign, "2"))));
  }

  lemma OneE2ParseInt()
    ensures ParseInt("1e2") == Some(1)
  {
    ScanOneThenExponent();
    ParseIntDigits("1e2", Decimal(NoSign, "1", false, []));
    OneHundred();
  }

  /** A text that starts with a digit has no white space to skip. */
  lemma DigitFirst(s: string)
    requires s != [] && IsDigit(s[0])
    ensures Text.TrimStart(s, Text.JsSpace) == s
  {
    assert Text.Leading(s, Text.JsSpace) == 0;
  }

  /** `parseInt` reads the integer digits a text starts with. */
  lemma ParseIntDigits(s: string, d: Decimal)
    requires s != [] && IsDigit(s[0]) && ScanDecimal(s) == d && d.intDigits != []
    ensures ParseInt(s) == Some(DigitsValue(d.intDigits))
  {
    DigitFirst(s);
  }

  /** A whole-text literal that keeps to the input syntax's sign and digit
      rules makes a valid input number worth the literal's value. */
  lemma LiteralIsValid(s: string, l: Literal)
    requires ScanLiteral(s) == l && l.Length() == |s|
    requires l.mantissa.sign == NoSign && l.mantissa.intDigits != []
    requires l.mantissa.hasDot ==> l.mantissa.fracDigits != []
    ensures IsValidFloat(s) && InputValue(s) == Some(l.Value())
  {
  }

  lemma ScanPointThenExponent()
    ensures ScanDecimal("0.1e1") == Decimal(NoSign, "0", true, "1")
  {
    var s := "0.1e1";
    assert Text.Leading(s, IsDigit) == 1 by {
      assert s == "0" + ".1e1";
      LeadingDigitsBefore("0", ".1e1");
    }
    assert s[1] == '.' && s[..1] == "0" && s[2..] == "1e1";
    assert Text.Leading("1e1", IsDigit) == 1 by {
      assert "1e1" == "1" + "e1";
      LeadingDigitsBefore("1", "e1");
    }
    assert "1e1"[..1] == "1";
    assert ScanUnsigned(s) == Decimal(NoSign, "0", true, "1");
  }

  lemma LiteralPointE1()
    ensures ScanLiteral("0.1e1")
      == Literal(Decimal(NoSign, "0", true, "1"), Some(Exponent('e', NoSign, "1")))
  {
    ScanPointThenExponent();
    assert "0.1e1"[3..] == "e1";
    ExponentOne();
  }

  lemma ExponentOne()
    ensures ScanExponent("e1") == Some(Exponent('e', NoSign, "1"))
    ensures Exponent('e', NoSign, "1").Power() == 1
  {
    assert Text.Leading("1", IsDigit) == 1;
    assert "e1"[1..] == "1" && "1"[..1] == "1";
    assert "1"[..0] == [];
  }

  lemma OneTenth()
    ensures Decimal(NoSign, "0", true, "1").Value() == 0.1
    ensures 0.1 * Scale(1) == 1.0
  {
    assert "0"[..0] == [] && "1"[..0] == [];
    assert Pow10(1) == 10;
  }

  lemma ScanOneThenExponent()
    ensures ScanDecimal("1e2") == Decimal(NoSign, "1", false, [])
  {
    var s := "1e2";
    assert Text.Leading(s, IsDigit) == 1 by {
      assert s == "1" + "e2";
      LeadingDigitsBefore("1", "e2");
    }
    assert s[..1] == "1";
  }

  lemma LiteralOneE2()
    ensures ScanLiteral("1e2")
      == Literal(Decimal(NoSign, "1", false, []), Some(Exponent('e', NoSign, "2")))
  {
    ScanOneThenExponent();
    assert "1e2"[1..] == "e2";
    ExponentTwo();
  }

  lemma ExponentTwo()
    ensures ScanExponent("e2") == Some(Exponent('e', NoSign, "2"))
    ensures Exponent('e', NoSign, "2").Power() == 2
  {
    assert Text.Leading("2", IsDigit) == 1;
    assert "e2"[1..] == "2" && "2"[..1] == "2";
    assert "2"[..0] == [];
  }

  lemma OneHundred()
    ensures DigitsValue("1") == 1
    ensures Decimal(NoSign, "1", false, []).Value() == 1.0
    ensures 1.0 * Scale(2) == 100.0
  {
    assert "1"[..0] == [];
    assert Pow10(2) == 100 by {
      assert Pow10(1) == 10;
    }
  }

  /** A decimal whose value is a whole number of at least one has integer
      digits, no minus sign, and a fraction worth nothing. */
  lemma WholeDecimal(d: Decimal)
    requires d.WellFormed() && d.Value() >= 1.0 && d.Value() == d.Value().Floor as real
    ensures d.sign != Minus && |d.intDigits| > 0
    ensures d.Value().Floor == DigitsValue(d.intDigits)
  {
    var n := DigitsValue(d.intDigits);
    var f := DigitsValue(d.fracDigits) as real / Pow10(|d.fracDigits|) as real;
    FractionBelowOne(DigitsValue(d.fracDigits), Pow10(|d.fracDigits|));
    assert d.sign != Minus;
    assert d.Value() == n as real + f;
    var k := d.Value().Floor - n;
    assert k as real == f;
    assert k == 0;
  }

  lemma FractionBelowOne(a: nat, b: nat)
    requires a < b
    ensures 0.0 <= a as real / b as real < 1.0
  {
  }
}
