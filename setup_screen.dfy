/** The set-up screen's submit handler (src/components/SetupScreen.tsx): the
    goal text is read with `parseInt(goal, 10)` and handed to `onComplete`
    only when the result is greater than zero.

    `parseInt` follows section 19.2.5 of ECMA-262 for radix 10: leading white
    space is skipped, one sign is accepted, then the longest run of decimal
    digits is read; with no digits the result is NaN (here `None`). */
module SetupScreen {
  import opened Collections

  /** The code points of ECMAScript's WhiteSpace and LineTerminator
      productions, which `parseInt` trims from the start of its input. */
  predicate IsStrWhiteSpaceChar(c: char)
  {
    var n := c as int;
    // TAB, VT, FF, SPACE, NO-BREAK SPACE, ZERO WIDTH NO-BREAK SPACE
    n == 0x09 || n == 0x0B || n == 0x0C || n == 0x20 || n == 0xA0 || n == 0xFEFF
    // the remaining space separators (category Zs)
    || n == 0x1680 || (0x2000 <= n <= 0x200A) || n == 0x202F || n == 0x205F || n == 0x3000
    // LF, CR, LINE SEPARATOR, PARAGRAPH SEPARATOR
    || n == 0x0A || n == 0x0D || n == 0x2028 || n == 0x2029
  }

  predicate IsDigit(c: char)
  {
    '0' <= c <= '9'
  }

  predicate AllDigits(s: string)
  {
    forall i :: 0 <= i < |s| ==> IsDigit(s[i])
  }

  /** The input with leading white space removed. */
  function TrimStart(s: string): (r: string)
    ensures |r| <= |s| && r == s[|s| - |r|..]
    ensures r == [] || !IsStrWhiteSpaceChar(r[0])
  {
    if s != [] && IsStrWhiteSpaceChar(s[0]) then TrimStart(s[1..]) else s
  }

  /** The longest prefix of `s` made of decimal digits. */
  function LeadingDigits(s: string): (r: string)
    ensures |r| <= |s| && r == s[..|r|]
    ensures AllDigits(r)
    ensures |r| == |s| || !IsDigit(s[|r|])
  {
    if s != [] && IsDigit(s[0]) then [s[0]] + LeadingDigits(s[1..]) else []
  }

  /** The value of a string of decimal digits, most significant first. */
  function DigitsValue(d: string): nat
    requires AllDigits(d)
  {
    if d == [] then 0 else DigitsValue(d[..|d| - 1]) * 10 + (d[|d| - 1] as int - '0' as int)
  }

  /** The signed read `parseInt` makes once white space is trimmed: one
      optional sign, then the longest run of digits; no digits is NaN. */
  function ParseSigned(t: string): Option<int>
  {
    var negative := t != [] && t[0] == '-';
    var unsigned := if t != [] && (t[0] == '-' || t[0] == '+') then t[1..] else t;
    var z := LeadingDigits(unsigned);
    if z == [] then None
    else
      var magnitude: int := DigitsValue(z);
      Some(if negative then -magnitude else magnitude)
  }

  /** `parseInt(s, 10)`, with `None` for NaN. A negative zero ("-0") is
      represented as 0: both fail the goal check alike. */
  function ParseInt(s: string): (r: Option<int>)
    ensures TrimStart(s) == [] ==> r.None?
    ensures r.Some? && r.value < 0 ==> TrimStart(s)[0] == '-'
    ensures r.Some? ==> IsDigit(TrimStart(s)[0]) || TrimStart(s)[0] == '-' || TrimStart(s)[0] == '+'
  {
    ParseSigned(TrimStart(s))
  }

  /** `handleSubmit`: the goal handed to `onComplete`, or `None` when no call
      is made. */
  function ParseGoal(input: string): (r: Option<int>)
    ensures r.Some? ==> r.value > 0
    ensures r.Some? <==> ParseInt(input).Some? && ParseInt(input).value > 0
    ensures r.Some? ==> r == ParseInt(input)
  {
    var n := ParseInt(input);
    if n.Some? && n.value > 0 then n else None
  }

  /** The decimal rendering of a natural number, without leading zeros. */
  function Decimal(n: nat): (s: string)
    ensures s != [] && AllDigits(s)
  {
    if n < 10 then [('0' as int + n) as char]
    else Decimal(n / 10) + [('0' as int + n % 10) as char]
  }

  lemma {:induction false} DecimalValue(n: nat)
    ensures DigitsValue(Decimal(n)) == n
  {
    if n >= 10 {
      DecimalValue(n / 10);
      var d := Decimal(n);
      assert d[..|d| - 1] == Decimal(n / 10);
    }
  }

  lemma {:induction false} LeadingDigitsStopsAtNonDigit(d: string, rest: string)
    requires AllDigits(d)
    requires rest == [] || !IsDigit(rest[0])
    ensures LeadingDigits(d + rest) == d
  {
    if d != [] {
      assert (d + rest)[1..] == d[1..] + rest;
      LeadingDigitsStopsAtNonDigit(d[1..], rest);
    }
  }

  /** Input that starts with a digit is neither trimmed nor signed: `parseInt`
      reads its leading digits. */
  lemma ParseIntOfDigitStart(s: string)
    requires s != [] && IsDigit(s[0])
    ensures ParseInt(s) == Some(DigitsValue(LeadingDigits(s)) as int)
  {
    assert !IsStrWhiteSpaceChar(s[0]);
    assert TrimStart(s) == s;
    assert s[0] != '-' && s[0] != '+';
    var z := LeadingDigits(s);
    assert z != [];
    assert ParseSigned(s) == Some(DigitsValue(z) as int);
  }

  /** Input that starts with a minus sign is not trimmed: `parseInt` reads
      the digits after the sign and negates them. */
  lemma ParseIntOfMinus(u: string)
    ensures var z := LeadingDigits(u);
            ParseInt("-" + u) == if z == [] then None else Some(-(DigitsValue(z) as int))
  {
    var s := "-" + u;
    assert s[0] == '-' && s[1..] == u;
    assert !IsStrWhiteSpaceChar(s[0]);
    assert TrimStart(s) == s;
    var z := LeadingDigits(u);
    assert LeadingDigits(s[1..]) == z;
    if z == [] {
      assert ParseSigned(s) == None;
    } else {
      assert ParseSigned(s) == Some(-(DigitsValue(z) as int));
    }
  }

  /** `parseInt` reads a decimal number back and stops at the first character
      that is not a digit, so "12.9" gives 12 and "12abc" gives 12. */
  lemma ParseIntReadsDecimal(n: nat, rest: string)
    requires rest == [] || !IsDigit(rest[0])
    ensures ParseInt(Decimal(n) + rest) == Some(n)
  {
    var d := Decimal(n);
    var s := d + rest;
    assert s[0] == d[0];
    ParseIntOfDigitStart(s);
    LeadingDigitsStopsAtNonDigit(d, rest);
    DecimalValue(n);
  }

  /** A leading minus sign negates what follows. */
  lemma ParseIntReadsNegativeDecimal(n: nat, rest: string)
    requires rest == [] || !IsDigit(rest[0])
    ensures ParseInt("-" + Decimal(n) + rest) == Some(-(n as int))
  {
    var d := Decimal(n);
    assert "-" + d + rest == "-" + (d + rest);
    ParseIntOfMinus(d + rest);
    LeadingDigitsStopsAtNonDigit(d, rest);
    DecimalValue(n);
  }

  /** Every positive whole number typed in is accepted as the goal, and a
      fractional part is dropped. */
  lemma PositiveGoalIsAccepted(n: nat, rest: string)
    requires n > 0
    requires rest == [] || !IsDigit(rest[0])
    ensures ParseGoal(Decimal(n) + rest) == Some(n)
  {
    ParseIntReadsDecimal(n, rest);
  }

  /** Zero and negative goals produce no call. */
  lemma NonPositiveGoalIsRejected(n: nat, rest: string)
    requires rest == [] || !IsDigit(rest[0])
    ensures ParseGoal(Decimal(0) + rest) == None
    ensures ParseGoal("-" + Decimal(n) + rest) == None
  {
    ParseIntReadsDecimal(0, rest);
    ParseIntReadsNegativeDecimal(n, rest);
  }

  /** Input without a leading run of digits (after white space and one sign)
      parses to NaN and produces no call; the empty input is one such. */
  lemma NoDigitsIsRejected(input: string)
    requires var t := TrimStart(input);
             var u := if t != [] && (t[0] == '-' || t[0] == '+') then t[1..] else t;
             u == [] || !IsDigit(u[0])
    ensures ParseInt(input) == None && ParseGoal(input) == None
  {
  }

  /** "12.9" sets a goal of 12. */
  lemma FractionalGoalIsTruncated()
    ensures ParseGoal("12.9") == Some(12)
  {
    assert Decimal(12) == "12";
    assert "12.9" == Decimal(12) + ".9";
    PositiveGoalIsAccepted(12, ".9");
  }

  /** "0" and "-5" set no goal. */
  lemma ZeroAndNegativeGoalExamples()
    ensures ParseGoal("0") == None
    ensures ParseGoal("-5") == None
  {
    assert "0" == Decimal(0) + "";
    assert Decimal(5) == "5";
    assert "-5" == "-" + Decimal(5) + "";
    NonPositiveGoalIsRejected(5, "");
  }

  /** An empty or non-numeric entry sets no goal. */
  lemma NonNumericGoalExamples()
    ensures ParseGoal("") == None
    ensures ParseGoal("abc") == None
  {
    assert TrimStart("abc") == "abc";
    NoDigitsIsRejected("abc");
  }

  // ---------------------------------------------------------------------
  // The goal input's own constraints, checked by the browser before the
  // submit handler runs

  /** Ten to the power `n`. */
  function Pow10(n: nat): (r: real)
    ensures r >= 1.0
  {
    if n == 0 then 1.0 else 10.0 * Pow10(n - 1)
  }

  /** The exponent part of a valid floating-point number (section 2.3.4.3 of the
      HTML Living Standard): either nothing, or `e` or `E`, an optional sign and
      one or more digits that end the text. */
  function Exponent(t: string): (r: Option<int>)
    ensures t == [] ==> r == Some(0)
    ensures r.Some? && t != [] ==> t[0] == 'e' || t[0] == 'E'
  {
    if t == [] then Some(0)
    else if t[0] != 'e' && t[0] != 'E' then None
    else
      var v := t[1..];
      var w := if v != [] && (v[0] == '-' || v[0] == '+') then v[1..] else v;
      var d := LeadingDigits(w);
      if d == [] || |d| != |w| then None
      else
        var e: int := DigitsValue(d);
        Some(if v[0] == '-' then -e else e)
  }

  /** The parts of a valid floating-point number. */
  datatype FloatText = FloatText(negative: bool, whole: string, fraction: string, exponent: int)

  /** What follows the whole digits of a number: an optional fraction (a
      point and one or more digits) and the rest. A point without digits
      after it is not part of any number. */
  function SplitFraction(t: string): (r: Option<(string, string)>)
    ensures r.Some? ==> AllDigits(r.value.0) && |r.value.1| <= |t|
    ensures t == [] || t[0] != '.' ==> r == Some(([], t))
  {
    if t != [] && t[0] == '.' then
      var f := LeadingDigits(t[1..]);
      if f == [] then None else Some((f, t[1 + |f|..]))
    else Some(([], t))
  }

  /** The syntax of a valid floating-point number: an optional "-", then
      digits, digits with a fraction, or a fraction alone, then an optional
      exponent. */
  function ParseFloatText(s: string): (r: Option<FloatText>)
    ensures s == [] ==> r.None?
    ensures r.Some? ==> AllDigits(r.value.whole) && AllDigits(r.value.fraction)
    ensures r.Some? ==> (r.value.negative <==> s[0] == '-')
  {
    var negative := s != [] && s[0] == '-';
    var u := if negative then s[1..] else s;
    var whole := LeadingDigits(u);
    match SplitFraction(u[|whole|..])
    case None => None
    case Some((fraction, rest)) =>
      if whole == [] && fraction == [] then None
      else
        match Exponent(rest)
        case None => None
        case Some(e) => Some(FloatText(negative, whole, fraction, e))
  }

  /** The whole digits plus the fraction digits read after the point. */
  function Mantissa(whole: string, fraction: string): (r: real)
    requires AllDigits(whole) && AllDigits(fraction)
    ensures r >= 0.0
  {
    DigitsValue(whole) as real + DigitsValue(fraction) as real / Pow10(|fraction|)
  }

  /** `m` times ten to the power `e`. */
  function Scale(m: real, e: int): (r: real)
    ensures m >= 0.0 ==> r >= 0.0
  {
    if e >= 0 then
      var p := Pow10(e);
      assert m >= 0.0 ==> m * p >= 0.0;
      m * p
    else
      m / Pow10(-e)
  }

  /** The number held by an `<input type="number">` whose value is `s`. The
      browser sanitises any text that is not a valid floating-point number to
      the empty string, which holds no number. */
  function NumberValue(s: string): (r: Option<real>)
    ensures s == [] ==> r.None?
    ensures r.Some? && s[0] == '-' ==> r.value <= 0.0
    ensures r.Some? && s[0] != '-' ==> r.value >= 0.0
  {
    match ParseFloatText(s)
    case None => None
    case Some(f) =>
      var m := Scale(Mantissa(f.whole, f.fraction), f.exponent);
      Some(if f.negative then -m else m)
  }

  /** Constraint validation of the goal input: `required` (a number is
      present), `min="1"` (it is not below 1) and the default step of 1 counted
      from the minimum (it is a whole number). An input that fails any of them
      keeps the form from submitting. */
  predicate GoalInputValid(input: string)
    ensures GoalInputValid(input) ==> input != [] && input[0] != '-'
  {
    var v := NumberValue(input);
    v.Some? && v.value >= 1.0 && v.value.Floor as real == v.value
  }

  /** Digits followed by nothing, or by a tail that starts neither a fraction
      nor more digits, form a whole number with the tail's exponent. */
  lemma ParseFloatOfWhole(d: string, t: string)
    requires d != [] && AllDigits(d)
    requires t == [] || (!IsDigit(t[0]) && t[0] != '.')
    ensures ParseFloatText(d + t) == match Exponent(t)
                                     case None => None
                                     case Some(e) => Some(FloatText(false, d, [], e))
  {
    var s := d + t;
    assert s[0] == d[0];
    LeadingDigitsStopsAtNonDigit(d, t);
    assert s[|d|..] == t;
  }

  /** Digits, a point and more digits form a number with a fraction and no
      exponent. */
  lemma ParseFloatOfFraction(w: string, f: string)
    requires w != [] && AllDigits(w) && f != [] && AllDigits(f)
    ensures ParseFloatText(w + "." + f) == Some(FloatText(false, w, f, 0))
  {
    var s := w + "." + f;
    assert s == w + ("." + f) && s[0] == w[0];
    LeadingDigitsStopsAtNonDigit(w, "." + f);
    assert s[|w|..] == "." + f && ("." + f)[1..] == f + [];
    LeadingDigitsStopsAtNonDigit(f, []);
    assert ("." + f)[1 + |f|..] == [];
    assert SplitFraction("." + f) == Some((f, []));
  }

  lemma NumberValueOfWhole(d: string, t: string)
    requires d != [] && AllDigits(d)
    requires t == [] || (!IsDigit(t[0]) && t[0] != '.')
    requires Exponent(t).Some?
    ensures NumberValue(d + t) == Some(Scale(Mantissa(d, []), Exponent(t).value))
  {
    ParseFloatOfWhole(d, t);
  }

  lemma NumberValueOfFraction(w: string, f: string)
    requires w != [] && AllDigits(w) && f != [] && AllDigits(f)
    ensures NumberValue(w + "." + f) == Some(Mantissa(w, f))
  {
    ParseFloatOfFraction(w, f);
    var m := Mantissa(w, f);
    assert NumberValue(w + "." + f) == Some(Scale(m, 0));
    ScaleZero(m);
  }

  lemma MantissaOfWhole(d: string)
    requires AllDigits(d)
    ensures Mantissa(d, []) == DigitsValue(d) as real
  {
    assert DigitsValue([]) == 0;
    assert Pow10(0) == 1.0;
    assert 0 as real / 1.0 == 0.0;
  }

  lemma MantissaValue(w: string, f: string, a: nat, b: nat, p: real)
    requires AllDigits(w) && AllDigits(f)
    requires DigitsValue(w) == a && DigitsValue(f) == b && Pow10(|f|) == p
    ensures Mantissa(w, f) == a as real + b as real / p
  {
  }

  lemma ScaleUp(m: real, e: nat)
    ensures Scale(m, e) == m * Pow10(e)
  {
  }

  lemma ScaleZero(m: real)
    ensures Scale(m, 0) == m
  {
    assert Pow10(0) == 1.0;
  }

  /** An exponent "e" followed by digits. */
  lemma ExponentOfDigits(d: string)
    requires d != [] && AllDigits(d)
    ensures Exponent("e" + d) == Some(DigitsValue(d) as int)
  {
    assert ("e" + d)[0] == 'e' && ("e" + d)[1..] == d + [];
    LeadingDigitsStopsAtNonDigit(d, []);
  }

  /** A positive whole number typed plainly passes the browser's checks and the
      handler alike, and becomes the goal. */
  lemma PlainGoalPassesBoth(n: nat)
    requires n > 0
    ensures NumberValue(Decimal(n)) == Some(n as real)
    ensures GoalInputValid(Decimal(n)) && ParseGoal(Decimal(n)) == Some(n)
  {
    var d := Decimal(n);
    assert d + [] == d;
    NumberValueOfWhole(d, []);
    MantissaOfWhole(d);
    ScaleZero(Mantissa(d, []));
    DecimalValue(n);
    PositiveGoalIsAccepted(n, []);
  }

  /** "12.9" never reaches the handler: it is not a whole number. */
  lemma FractionalGoalIsBlocked()
    ensures NumberValue("12.9") == Some(12.9)
    ensures !GoalInputValid("12.9")
  {
    FractionalGoalValue();
    assert (12.9).Floor == 12;
  }

  lemma FractionalGoalValue()
    ensures NumberValue("12.9") == Some(12.9)
  {
    var w, f := "12", "9";
    FractionalGoalParts(w, f);
    NumberValueOfFraction(w, f);
    MantissaValue(w, f, 12, 9, 10.0);
  }

  lemma FractionalGoalParts(w: string, f: string)
    requires w == "12" && f == "9"
    ensures "12.9" == w + "." + f && AllDigits(w) && AllDigits(f)
    ensures DigitsValue(w) == 12 && DigitsValue(f) == 9 && Pow10(|f|) == 10.0
  {
    assert w[..1] == "1" && "1"[..0] == [];
    assert DigitsValue("1") == 1;
    assert f[..0] == [];
    assert Pow10(0) == 1.0;
  }

  /** "0" and "-5" never reach the handler: they are below the minimum. */
  lemma NonPositiveGoalIsBlocked()
    ensures !GoalInputValid("0") && !GoalInputValid("-5")
  {
    assert "0" == "0" + [];
    NumberValueOfWhole("0", []);
    MantissaOfWhole("0");
    ScaleZero(Mantissa("0", []));
    assert DigitsValue("0") == 0;
  }

  /** An empty input (text that is not a number is sanitised to it) never
      reaches the handler: the input is required. */
  lemma MissingGoalIsBlocked()
    ensures !GoalInputValid("") && !GoalInputValid("abc")
  {
    assert LeadingDigits("abc") == [];
  }

  /** As written: the browser accepts exponent notation, and `parseInt` reads
      only the leading digits, so "1e3", the number 1000, sets a goal of 1. */
  lemma ExponentGoalIsMisread()
    ensures NumberValue("1e3") == Some(1000.0) && GoalInputValid("1e3")
    ensures ParseGoal("1e3") == Some(1)
  {
    assert "e3" == "e" + "3";
    ExponentOfDigits("3");
    assert DigitsValue("3") == 3 && DigitsValue("1") == 1;
    assert "1e3" == "1" + "e3";
    NumberValueOfWhole("1", "e3");
    MantissaOfWhole("1");
    ScaleUp(1.0, 3);
    assert Pow10(3) == 1000.0;
    assert Decimal(1) == "1";
    PositiveGoalIsAccepted(1, "e3");
  }

  /** A fraction with no whole digits, followed by a tail that does not
      continue the digits, forms a number with the tail's exponent. */
  lemma ParseFloatOfFractionOnly(f: string, t: string)
    requires f != [] && AllDigits(f)
    requires t == [] || !IsDigit(t[0])
    requires Exponent(t).Some?
    ensures ParseFloatText("." + f + t) == Some(FloatText(false, [], f, Exponent(t).value))
  {
    var s := "." + f + t;
    assert s[0] == '.' && !IsDigit(s[0]);
    assert LeadingDigits(s) == [];
    assert s[0..] == s;
    assert s[1..] == f + t;
    LeadingDigitsStopsAtNonDigit(f, t);
    assert s[1 + |f|..] == t;
    assert SplitFraction(s) == Some((f, t));
  }

  /** As written: exponent notation can also make a valid goal silently do
      nothing. ".5e1" is the number 5, which the browser accepts, but
      `parseInt` finds no digit before the point, so no goal is set. */
  lemma FractionExponentGoalIsIgnored()
    ensures NumberValue(".5e1") == Some(5.0) && GoalInputValid(".5e1")
    ensures ParseGoal(".5e1") == None
  {
    FractionExponentGoalValue();
    FiveIsWhole(NumberValue(".5e1").value);
    FractionExponentNotParsed(".5e1");
  }

  lemma FiveIsWhole(v: real)
    requires v == 5.0
    ensures v >= 1.0 && v.Floor as real == v
  {
    assert v.Floor == 5;
  }

  lemma FractionExponentNotParsed(s: string)
    requires s == ".5e1"
    ensures ParseGoal(s) == None
  {
    assert s[0] == '.' && !IsStrWhiteSpaceChar(s[0]);
    assert TrimStart(s) == s;
    NoDigitsIsRejected(s);
  }

  lemma FractionExponentGoalValue()
    ensures NumberValue(".5e1") == Some(5.0)
  {
    var f, t := "5", "e1";
    assert ".5e1" == "." + f + t;
    FractionPart(f);
    ExponentPart(t);
    ParseFloatOfFractionOnly(f, t);
    MantissaValue([], f, 0, 5, 10.0);
    ScaleUp(0.5, 1);
  }

  lemma FractionPart(f: string)
    requires f == "5"
    ensures AllDigits(f) && DigitsValue([]) == 0 && DigitsValue(f) == 5 && Pow10(|f|) == 10.0
  {
    assert f[..0] == [];
    assert Pow10(0) == 1.0;
  }

  lemma ExponentPart(t: string)
    requires t == "e1"
    ensures !IsDigit(t[0]) && Exponent(t) == Some(1)
  {
    assert t == "e" + "1";
    ExponentOfDigits("1");
    assert DigitsValue("1") == 1;
  }

  /** Intended: the goal is the number the input holds, which the browser has
      already checked to be a whole number of at least 1. */
  function IntendedGoal(input: string): (r: Option<int>)
    ensures r.Some? <==> GoalInputValid(input)
    ensures r.Some? ==> r.value >= 1 && r.value as real == NumberValue(input).value
  {
    if GoalInputValid(input) then Some(NumberValue(input).value.Floor) else None
  }

  /** The intended reading agrees with `parseInt` on plain whole numbers,
      reads "1e3" as 1000 and ".5e1" as 5. */
  lemma IntendedGoalReadsWholeNumber(n: nat)
    requires n > 0
    ensures IntendedGoal(Decimal(n)) == ParseGoal(Decimal(n)) == Some(n)
    ensures IntendedGoal("1e3") == Some(1000)
    ensures IntendedGoal(".5e1") == Some(5)
  {
    PlainGoalPassesBoth(n);
    ExponentGoalIsMisread();
    FractionExponentGoalIsIgnored();
  }
}
