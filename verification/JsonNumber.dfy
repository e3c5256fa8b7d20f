/** `normalizeJSONNumber` in application/projection/embedded_json.go: a numeral is rewritten,
    digit by digit, into one text per value. Values are exact, as real numbers. */
module JsonNumber {
  import opened Wrappers

  const MAX_JSON_BYTES: nat := 512 * 1024

  datatype Result = Ok(text: string) | Err

  // ----- Numerals and their values -------------------------------------------------------

  /** The parts of a numeral. `point` tells whether a decimal point is written. */
  datatype Numeral = Numeral(negative: bool, integer: string, point: bool, fraction: string, power: Option<Power>)

  datatype Power = Power(marker: char, sign: string, digits: string)

  predicate AllDigits(s: string)
  {
    forall i :: 0 <= i < |s| ==> '0' <= s[i] <= '9'
  }

  predicate WellFormed(p: Numeral)
  {
    && AllDigits(p.integer) && AllDigits(p.fraction)
    && |p.integer| + |p.fraction| > 0
    && (!p.point ==> p.fraction == "")
    && (p.power.Some? ==> WellFormedPower(p.power.value))
  }

  predicate WellFormedPower(p: Power)
  {
    p.marker in "eE" && p.sign in ["", "+", "-"] && p.digits != "" && AllDigits(p.digits)
  }

  function Spell(p: Numeral): string
  {
    (if p.negative then "-" else "") + (Mantissa(p) + PowerText(p.power))
  }

  function Mantissa(p: Numeral): string
  {
    p.integer + (if p.point then "." + p.fraction else "")
  }

  function PowerText(p: Option<Power>): string
  {
    if p.Some? then [p.value.marker] + p.value.sign + p.value.digits else ""
  }

  function Digit(c: char): int { c as int - '0' as int }

  /** The number that digits spell as a whole. */
  function Whole(s: string): int
  {
    if s == "" then 0 else 10 * Whole(s[..|s| - 1]) + Digit(s[|s| - 1])
  }

  /** The number that digits spell after a decimal point. */
  function Fraction(s: string): real
  {
    if s == "" then 0.0 else (Digit(s[0]) as real + Fraction(s[1..])) / 10.0
  }

  /** `x` times ten to the power `e`. */
  function Scale(x: real, e: int): real
    decreases if e < 0 then -e else e
  {
    if e == 0 then x else if e > 0 then 10.0 * Scale(x, e - 1) else Scale(x, e + 1) / 10.0
  }

  function Exponent(p: Numeral): int
  {
    if p.power.None? then 0
    else if p.power.value.sign == "-" then -Whole(p.power.value.digits)
    else Whole(p.power.value.digits)
  }

  function Magnitude(p: Numeral): real
  {
    Scale(Whole(p.integer) as real + Fraction(p.fraction), Exponent(p))
  }

  function Value(p: Numeral): real
  {
    if p.negative then -Magnitude(p) else Magnitude(p)
  }

  // ----- Reading -------------------------------------------------------------------------

  /** The first place of one of `stops`, or the end. */
  function Index(s: string, stops: string): (i: nat)
    ensures i <= |s|
  {
    if s == "" || s[0] in stops then 0 else 1 + Index(s[1..], stops)
  }

  function ReadPower(s: string): Option<Power>
    requires s != ""
  {
    var signed := |s| > 1 && s[1] in "+-";
    var p := Power(s[0], if signed then s[1..2] else "", if signed then s[2..] else s[1..]);
    if WellFormedPower(p) then Some(p) else None
  }

  function ReadMantissa(negative: bool, mantissa: string, power: Option<Power>): Option<Numeral>
  {
    var dot := Index(mantissa, ".");
    var point := dot < |mantissa|;
    var p := Numeral(negative, mantissa[..dot], point, if point then mantissa[dot + 1..] else "", power);
    if WellFormed(p) then Some(p) else None
  }

  /** Lines 174-199. */
  function Read(input: string): Option<Numeral>
  {
    var negative := input != "" && input[0] == '-';
    ReadRest(negative, if negative then input[1..] else input)
  }

  function ReadRest(negative: bool, rest: string): Option<Numeral>
  {
    var end := Index(rest, "eE");
    if end == |rest| then ReadMantissa(negative, rest, None)
    else
      var power := ReadPower(rest[end..]);
      if power.None? then None else ReadMantissa(negative, rest[..end], power)
  }

  ghost predicate Free(s: string, stops: string)
  {
    forall i :: 0 <= i < |s| ==> s[i] !in stops
  }

  lemma {:induction false} IndexSplits(a: string, b: string, stops: string)
    requires Free(a, stops) && (b == "" || b[0] in stops)
    ensures Index(a + b, stops) == |a|
  {
    if a == "" {
      assert a + b == b;
    } else {
      assert (a + b)[1..] == a[1..] + b;
      IndexSplits(a[1..], b, stops);
    }
  }

  lemma {:induction false} ReadPowerSpells(s: string)
    requires s != "" && ReadPower(s).Some?
    ensures PowerText(ReadPower(s)) == s
  {
  }

  lemma {:induction false} ReadPowerReturns(p: Power)
    requires WellFormedPower(p)
    ensures ReadPower(PowerText(Some(p))) == Some(p)
  {
    var s := PowerText(Some(p));
    assert p.digits[0] !in "+-";
    if p.sign == "" {
      assert s[1] == p.digits[0];
      assert s[1..] == p.digits;
    } else {
      assert s[1..2] == p.sign && s[2..] == p.digits;
    }
  }

  lemma {:induction false} ReadMantissaReturns(p: Numeral)
    requires WellFormed(p)
    ensures ReadMantissa(p.negative, Mantissa(p), p.power) == Some(p)
  {
    var m := Mantissa(p);
    IndexSplits(p.integer, if p.point then "." + p.fraction else "", ".");
    assert m[..|p.integer|] == p.integer;
    if p.point {
      assert m[|p.integer| + 1..] == p.fraction;
    }
  }

  /** Reading undoes spelling. */
  lemma {:induction false} ReadSpelled(p: Numeral)
    requires WellFormed(p)
    ensures Read(Spell(p)) == Some(p)
  {
    var rest := Mantissa(p) + PowerText(p.power);
    var input := Spell(p);
    MantissaChars(p);
    assert rest[0] == Mantissa(p)[0];
    if p.negative {
      assert input[1..] == rest;
    } else {
      assert input == rest;
    }
    ReadRestReturns(p);
  }

  lemma {:induction false} ReadRestReturns(p: Numeral)
    requires WellFormed(p)
    ensures ReadRest(p.negative, Mantissa(p) + PowerText(p.power)) == Some(p)
  {
    var m, t := Mantissa(p), PowerText(p.power);
    var rest := m + t;
    MantissaChars(p);
    IndexSplits(m, t, "eE");
    assert rest[..|m|] == m && rest[|m|..] == t;
    ReadMantissaReturns(p);
    if p.power.Some? {
      ReadPowerReturns(p.power.value);
    } else {
      assert rest == m;
    }
  }

  lemma {:induction false} MantissaChars(p: Numeral)
    requires WellFormed(p)
    ensures var m := Mantissa(p); m != "" && Free(m, "eE") && m[0] != '-'
  {
  }

  lemma {:induction false} ReadMantissaSpells(negative: bool, mantissa: string, power: Option<Power>)
    requires ReadMantissa(negative, mantissa, power).Some?
    ensures var p := ReadMantissa(negative, mantissa, power).value;
      WellFormed(p) && p.negative == negative && p.power == power && Mantissa(p) == mantissa
  {
    IndexStops(mantissa, ".");
    var dot := Index(mantissa, ".");
    assert mantissa == mantissa[..dot] + (if dot < |mantissa| then "." + mantissa[dot + 1..] else "");
  }

  lemma {:induction false} IndexStops(s: string, stops: string)
    ensures Index(s, stops) < |s| ==> s[Index(s, stops)] in stops
  {
    if s != "" && s[0] !in stops {
      IndexStops(s[1..], stops);
    }
  }

  /** Whatever is read is well formed and spells the input. */
  lemma {:induction false} ReadSpells(input: string)
    requires Read(input).Some?
    ensures WellFormed(Read(input).value) && Spell(Read(input).value) == input
  {
    var negative := input != "" && input[0] == '-';
    SignSplits(input, negative);
    ReadRestSpells(negative, if negative then input[1..] else input);
  }

  lemma {:induction false} SignSplits(input: string, negative: bool)
    requires negative <==> input != "" && input[0] == '-'
    ensures input == (if negative then "-" else "") + (if negative then input[1..] else input)
  {
  }

  lemma {:induction false} ReadRestSpells(negative: bool, rest: string)
    requires ReadRest(negative, rest).Some?
    ensures var p := ReadRest(negative, rest).value;
      WellFormed(p) && p.negative == negative && Mantissa(p) + PowerText(p.power) == rest
  {
    var end := Index(rest, "eE");
    var mantissa, tail := rest[..end], rest[end..];
    var power := if tail == "" then None else ReadPower(tail);
    if tail != "" {
      ReadPowerSpells(tail);
    }
    RestSplits(negative, rest, end);
    ReadMantissaSpells(negative, mantissa, power);
  }

  lemma {:induction false} RestSplits(negative: bool, rest: string, end: nat)
    requires end == Index(rest, "eE") && ReadRest(negative, rest).Some?
    ensures rest[..end] + rest[end..] == rest
    ensures rest[end..] != "" ==> ReadPower(rest[end..]).Some?
    ensures ReadRest(negative, rest) ==
      ReadMantissa(negative, rest[..end], if rest[end..] == "" then None else ReadPower(rest[end..]))
  {
    assert end == |rest| ==> rest[..end] == rest;
  }

  // ----- The canonical text --------------------------------------------------------------

  function Zeros(n: nat): (z: string)
    ensures |z| == n && forall i :: 0 <= i < n ==> z[i] == '0'
  {
    seq(n, i => '0')
  }

  function LeadingZeros(s: string): (n: nat)
    ensures n <= |s|
  {
    if s == "" || s[0] != '0' then 0 else 1 + LeadingZeros(s[1..])
  }

  /** The digits of `0.m` times ten to the power `position`, laid out without an exponent. */
  function Layout(negative: bool, m: string, position: int): Numeral
  {
    if position <= 0 then Numeral(negative, "0", true, Zeros(-position) + m, None)
    else if position >= |m| then Numeral(negative, m + Zeros(position - |m|), false, "", None)
    else Numeral(negative, m[..position], true, m[position..], None)
  }

  /** Lines 206-208. */
  function Trim(m: string, position: int): (t: string)
    ensures |t| <= |m|
  {
    if m != "" && m[|m| - 1] == '0' && position < |m| then Trim(m[..|m| - 1], position) else m
  }

  function Predicted(m: string, position: int): int
  {
    if position <= 0 then |m| + 2 - position
    else if position >= |m| then position
    else |m| + 1
  }

  predicate InRange(exponent: int)
  {
    -0x8000_0000 <= exponent < 0x8000_0000
  }

  /** What the leading zeros leave of the digits, and where the decimal point then stands. */
  function Significant(p: Numeral): string
  {
    (p.integer + p.fraction)[LeadingZeros(p.integer + p.fraction)..]
  }

  function Position(p: Numeral): int
  {
    |p.integer| - LeadingZeros(p.integer + p.fraction) + Exponent(p)
  }

  /** The canonical text of a numeral. */
  function Normal(p: Numeral, limited: bool): Result
  {
    if !InRange(Exponent(p)) then Err
    else if Significant(p) == "" then Ok("0")
    else
      var m := Trim(Significant(p), Position(p));
      if limited && Predicted(m, Position(p)) > MAX_JSON_BYTES then Err
      else Ok(Spell(Layout(p.negative, m, Position(p))))
  }

  function NormalText(input: string, limited: bool): Result
  {
    if Read(input).None? then Err else Normal(Read(input).value, limited)
  }

  // ----- Arithmetic ----------------------------------------------------------------------

  lemma {:induction false} ScaleUp(x: real, e: int)
    ensures Scale(10.0 * x, e) == Scale(x, e + 1) == 10.0 * Scale(x, e)
    decreases if e < 0 then -e else e
  {
    if e > 0 {
      ScaleUp(x, e - 1);
    } else if e < 0 {
      ScaleUp(x, e + 1);
    }
  }

  lemma {:induction false} ScaleTwice(x: real, a: int, b: int)
    ensures Scale(Scale(x, a), b) == Scale(x, a + b)
    decreases if b < 0 then -b else b
  {
    if b > 0 {
      ScaleTwice(x, a, b - 1);
      ScaleUp(x, a + b - 1);
    } else if b < 0 {
      ScaleTwice(x, a, b + 1);
      ScaleUp(x, a + b);
    }
  }

  lemma {:induction false} ScaleThrice(x: real, a: int, b: int, c: int)
    ensures Scale(Scale(Scale(x, a), b), c) == Scale(x, b + a + c)
  {
    ScaleTwice(x, a, b);
    ScaleTwice(x, a + b, c);
  }

  lemma {:induction false} FractionBounds(s: string)
    requires AllDigits(s)
    ensures 0.0 <= Fraction(s) < 1.0
    ensures s != "" && s[0] != '0' ==> Fraction(s) >= 0.1
  {
    if s != "" {
      FractionBounds(s[1..]);
    }
  }

  /** Moving the decimal point: the digits of a numeral, all behind the point, scaled back. */
  lemma {:induction false} PointMoves(integer: string, fraction: string)
    requires AllDigits(integer) && AllDigits(fraction)
    ensures Whole(integer) as real + Fraction(fraction) == Scale(Fraction(integer + fraction), |integer|)
    decreases |integer|
  {
    if integer == "" {
      assert integer + fraction == fraction;
    } else {
      var u, x := integer[..|integer| - 1], integer[|integer| - 1];
      assert u + ([x] + fraction) == integer + fraction;
      assert ([x] + fraction)[1..] == fraction;
      PointMoves(u, [x] + fraction);
    }
  }

  lemma {:induction false} TrailingZeros(s: string, n: nat)
    ensures Fraction(s + Zeros(n)) == Fraction(s)
    decreases |s|, n
  {
    if s != "" {
      assert (s + Zeros(n))[1..] == s[1..] + Zeros(n);
      TrailingZeros(s[1..], n);
    } else if n > 0 {
      assert s + Zeros(n) == Zeros(n) && Zeros(n)[1..] == s + Zeros(n - 1);
      TrailingZeros(s, n - 1);
    }
  }

  lemma {:induction false} DroppedZeros(s: string)
    ensures var n: int := LeadingZeros(s);
      s[..n] == Zeros(n) && (n < |s| ==> s[n] != '0') && Fraction(s) == Scale(Fraction(s[n..]), -n)
  {
    var n := LeadingZeros(s);
    if n > 0 {
      DroppedZeros(s[1..]);
      assert s[1..][n - 1..] == s[n..];
      assert s[1..][..n - 1] == Zeros(n - 1);
      assert forall i :: 0 < i < n ==> s[i] == s[1..][i - 1];
    }
  }

  /** The magnitude in terms of the significant digits and the position of the point. */
  lemma {:induction false} MagnitudeOf(p: Numeral)
    requires WellFormed(p)
    ensures Magnitude(p) == Scale(Fraction(Significant(p)), Position(p))
  {
    PointMoves(p.integer, p.fraction);
    FractionOf(p);
    ScaleThrice(Fraction(Significant(p)), Lead(p), |p.integer|, Exponent(p));
  }

  function Lead(p: Numeral): int
  {
    0 - LeadingZeros(p.integer + p.fraction)
  }

  lemma {:induction false} FractionOf(p: Numeral)
    ensures Fraction(p.integer + p.fraction) == Scale(Fraction(Significant(p)), Lead(p))
  {
    DroppedZeros(p.integer + p.fraction);
  }

  lemma {:induction false} TrimDropsZeros(m: string, position: int)
    ensures m == Trim(m, position) + Zeros(|m| - |Trim(m, position)|)
    ensures var t := Trim(m, position); t != "" && t[|t| - 1] == '0' ==> position >= |t|
  {
    if m != "" && m[|m| - 1] == '0' && position < |m| {
      TrimDropsZeros(m[..|m| - 1], position);
    }
  }

  lemma {:induction false} Positive(x: real, e: int)
    requires x > 0.0
    ensures Scale(x, e) > 0.0
    decreases if e < 0 then -e else e
  {
    if e > 0 {
      Positive(x, e - 1);
    } else if e < 0 {
      Positive(x, e + 1);
    }
  }

  lemma {:induction false} ScaleZero(e: int)
    ensures Scale(0.0, e) == 0.0
    decreases if e < 0 then -e else e
  {
    if e > 0 {
      ScaleZero(e - 1);
    } else if e < 0 {
      ScaleZero(e + 1);
    }
  }

  lemma {:induction false} ScaleGrows(x: real, e: nat)
    requires x > 0.0
    ensures Scale(x, e) >= x
    ensures e > 0 ==> Scale(x, e) >= 10.0 * x
  {
    if e > 0 {
      ScaleGrows(x, e - 1);
    }
  }

  /** Between a tenth and one, mantissa and power are determined by the value. */
  lemma {:induction false} ScaleUnique(x: real, a: int, y: real, b: int)
    requires 0.1 <= x < 1.0 && 0.1 <= y < 1.0 && Scale(x, a) == Scale(y, b)
    ensures a == b && x == y
  {
    ScaleTwice(x, a, -a);
    ScaleTwice(y, b, -a);
    ScaleTwice(x, a, -b);
    ScaleTwice(y, b, -b);
    if a <= b {
      ScaleGrows(y, b - a);
    } else {
      ScaleGrows(x, a - b);
    }
  }

  /** Digits that spell the same fraction differ only in trailing zeros. */
  lemma {:induction false} SameFraction(s: string, t: string)
    requires AllDigits(s) && AllDigits(t) && |s| <= |t| && Fraction(s) == Fraction(t)
    ensures t == s + Zeros(|t| - |s|)
  {
    if t != "" {
      FractionBounds(t[1..]);
      if s == "" {
        assert Digit(t[0]) == 0 && Fraction(t[1..]) == 0.0;
        SameFraction(s, t[1..]);
      } else {
        FractionBounds(s[1..]);
        var d := Digit(s[0]) as real - Digit(t[0]) as real;
        assert d == Fraction(t[1..]) - Fraction(s[1..]);
        assert -1.0 < d < 1.0;
        assert Digit(s[0]) == Digit(t[0]);
        SameFraction(s[1..], t[1..]);
      }
    }
  }

  // ----- What the canonical text keeps ---------------------------------------------------

  /** What the digits are after both trims. */
  ghost predicate Tidy(m: string, position: int)
  {
    m != "" && AllDigits(m) && m[0] != '0' && (m[|m| - 1] == '0' ==> position >= |m|)
  }

  lemma {:induction false} TrimmedIsTidy(p: Numeral)
    requires WellFormed(p) && Significant(p) != ""
    ensures Tidy(Trim(Significant(p), Position(p)), Position(p))
    ensures Magnitude(p) == Scale(Fraction(Trim(Significant(p), Position(p))), Position(p))
  {
    DroppedZeros(p.integer + p.fraction);
    MagnitudeOf(p);
    TrimIsTidy(Significant(p), Position(p));
  }

  lemma {:induction false} TrimIsTidy(s: string, position: int)
    requires s != "" && AllDigits(s) && s[0] != '0'
    ensures Tidy(Trim(s, position), position) && Fraction(Trim(s, position)) == Fraction(s)
  {
    var t := Trim(s, position);
    TrimDropsZeros(s, position);
    TrailingZeros(t, |s| - |t|);
    assert Zeros(|s|)[0] == '0';
    assert t == s[..|t|];
  }

  /** Layout writes the digits in place: it keeps the digits and the position. */
  lemma {:induction false} LayoutKeeps(negative: bool, m: string, position: int)
    requires Tidy(m, position)
    ensures Position(Layout(negative, m, position)) == position
    ensures Significant(Layout(negative, m, position)) == Padded(m, position)
  {
    var p := Layout(negative, m, position);
    var n := if position <= 0 then 1 - position else 0;
    LayoutDigits(negative, m, position);
    LeadingZerosOf(n, Padded(m, position));
    assert |p.integer| - n == position;
  }

  lemma {:induction false} LayoutDigits(negative: bool, m: string, position: int)
    requires Tidy(m, position)
    ensures var p := Layout(negative, m, position);
      p.integer + p.fraction == Zeros(if position <= 0 then 1 - position else 0) + Padded(m, position)
  {
  }

  function Padded(m: string, position: int): string
  {
    if position > |m| then m + Zeros(position - |m|) else m
  }

  /** It is well formed and has the length that was predicted, not counting the sign. */
  lemma {:induction false} LayoutWellFormed(negative: bool, m: string, position: int)
    requires Tidy(m, position)
    ensures IsPlainJson(Layout(negative, m, position))
    ensures |Spell(Layout(negative, m, position))| == Predicted(m, position) + (if negative then 1 else 0)
  {
    var p := Layout(negative, m, position);
    if position <= 0 {
      assert p.fraction[|p.fraction| - 1] == m[|m| - 1];
    } else if position < |m| {
      assert p.fraction[|p.fraction| - 1] == m[|m| - 1];
    }
  }

  lemma {:induction false} LeadingZerosOf(n: nat, m: string)
    requires m != "" && m[0] != '0'
    ensures LeadingZeros(Zeros(n) + m) == n && (Zeros(n) + m)[n..] == m
  {
    if n > 0 {
      assert (Zeros(n) + m)[1..] == Zeros(n - 1) + m;
      LeadingZerosOf(n - 1, m);
    }
  }

  lemma {:induction false} LayoutMagnitude(negative: bool, m: string, position: int)
    requires Tidy(m, position)
    ensures Magnitude(Layout(negative, m, position)) == Scale(Fraction(m), position)
  {
    LayoutKeeps(negative, m, position);
    LayoutWellFormed(negative, m, position);
    MagnitudeOf(Layout(negative, m, position));
    if position > |m| {
      TrailingZeros(m, position - |m|);
    }
  }

  /** The digits are all zero exactly when the value is zero. */
  lemma {:induction false} ZeroIffNoDigits(p: Numeral)
    requires WellFormed(p)
    ensures Value(p) == 0.0 <==> Significant(p) == ""
  {
    MagnitudeOf(p);
    if Significant(p) == "" {
      ScaleZero(Position(p));
    } else {
      DroppedZeros(p.integer + p.fraction);
      FractionBounds(Significant(p));
      Positive(Fraction(Significant(p)), Position(p));
    }
  }

  lemma {:induction false} SignOf(p: Numeral)
    requires WellFormed(p) && Value(p) != 0.0
    ensures Significant(p) != "" && (Value(p) < 0.0 <==> p.negative)
  {
    ZeroIffNoDigits(p);
    MagnitudeOf(p);
    DroppedZeros(p.integer + p.fraction);
    FractionBounds(Significant(p));
    Positive(Fraction(Significant(p)), Position(p));
  }

  lemma {:induction false} ReadZero()
    ensures Read("0") == Some(Numeral(false, "0", false, "", None))
    ensures Value(Numeral(false, "0", false, "", None)) == 0.0
    ensures Normal(Numeral(false, "0", false, "", None), true) == Normal(Numeral(false, "0", false, "", None), false) == Ok("0")
  {
    var zero := Numeral(false, "0", false, "", None);
    assert Spell(zero) == "0";
    ReadSpelled(zero);
    assert zero.integer + zero.fraction == "0";
    assert LeadingZeros("0") == 1;
    ZeroIffNoDigits(zero);
  }

  /** The text denotes exactly the value of the numeral. */
  lemma {:induction false} ValueIsPreserved(input: string, limited: bool)
    requires NormalText(input, limited).Ok?
    ensures Read(input).Some? && Read(NormalText(input, limited).text).Some?
    ensures Value(Read(NormalText(input, limited).text).value) == Value(Read(input).value)
  {
    ReadSpells(input);
    var p := Read(input).value;
    ZeroIffNoDigits(p);
    if Significant(p) == "" {
      ReadZero();
    } else {
      TrimmedIsTidy(p);
      var m := Trim(Significant(p), Position(p));
      LayoutWellFormed(p.negative, m, Position(p));
      LayoutMagnitude(p.negative, m, Position(p));
      ReadSpelled(Layout(p.negative, m, Position(p)));
    }
  }

  /** The text has no exponent, no superfluous zeros before the point and, where there is a
      point, digits on both sides: it is a number of section 6 of RFC 8259. */
  ghost predicate IsPlainJson(p: Numeral)
  {
    && p.power.None? && p.integer != ""
    && (p.integer[0] == '0' ==> p.integer == "0")
    && (p.point ==> p.fraction != "" && p.fraction[|p.fraction| - 1] != '0')
    && WellFormed(p)
  }

  lemma {:induction false} TextIsPlainJson(input: string, limited: bool)
    requires NormalText(input, limited).Ok?
    ensures Read(NormalText(input, limited).text).Some?
    ensures IsPlainJson(Read(NormalText(input, limited).text).value)
  {
    ReadSpells(input);
    var p := Read(input).value;
    if Significant(p) == "" {
      ReadZero();
    } else {
      TrimmedIsTidy(p);
      var m := Trim(Significant(p), Position(p));
      LayoutWellFormed(p.negative, m, Position(p));
      ReadSpelled(Layout(p.negative, m, Position(p)));
    }
  }

  /** The predicted length is the length of the text without its sign. */
  lemma {:induction false} PredictedLengthIsExact(input: string, limited: bool)
    requires NormalText(input, limited).Ok? && Value(Read(input).value) != 0.0
    ensures var p := Read(input).value;
      |NormalText(input, limited).text| ==
        Predicted(Trim(Significant(p), Position(p)), Position(p)) + (if Value(p) < 0.0 then 1 else 0)
  {
    ReadSpells(input);
    var p := Read(input).value;
    SignOf(p);
    TrimmedIsTidy(p);
    LayoutWellFormed(p.negative, Trim(Significant(p), Position(p)), Position(p));
  }

  /** The layout depends on the value alone. */
  lemma {:induction false} LayoutUnique(m: string, n: string, position: int, negative: bool)
    requires Tidy(m, position) && Tidy(n, position) && |m| <= |n| && Fraction(m) == Fraction(n)
    ensures Layout(negative, m, position) == Layout(negative, n, position)
    ensures Predicted(m, position) == Predicted(n, position)
  {
    SameFraction(m, n);
    if |m| < |n| {
      assert n[|n| - 1] == '0';
      assert m + Zeros(position - |m|) == n + Zeros(position - |n|);
    } else {
      assert m == n;
    }
  }

  lemma {:induction false} EqualNumerals(p: Numeral, q: Numeral, limited: bool)
    requires WellFormed(p) && WellFormed(q) && InRange(Exponent(p)) && InRange(Exponent(q)) && Value(p) == Value(q)
    ensures Normal(p, limited) == Normal(q, limited)
  {
    ZeroIffNoDigits(p);
    ZeroIffNoDigits(q);
    if Significant(p) != "" {
      TrimmedIsTidy(p);
      TrimmedIsTidy(q);
      var m, n := Trim(Significant(p), Position(p)), Trim(Significant(q), Position(q));
      FractionBounds(m);
      FractionBounds(n);
      Positive(Fraction(m), Position(p));
      Positive(Fraction(n), Position(q));
      ScaleUnique(Fraction(m), Position(p), Fraction(n), Position(q));
      if |m| <= |n| {
        LayoutUnique(m, n, Position(p), p.negative);
      } else {
        LayoutUnique(n, m, Position(p), p.negative);
      }
    }
  }

  /** Two numerals with readable exponents and equal values get the same answer: the same
      text, or both are refused as too long. */
  lemma {:induction false} EqualValuesGetOneText(a: string, b: string, limited: bool)
    requires Read(a).Some? && Read(b).Some? && Value(Read(a).value) == Value(Read(b).value)
    requires InRange(Exponent(Read(a).value)) && InRange(Exponent(Read(b).value))
    ensures NormalText(a, limited) == NormalText(b, limited)
  {
    ReadSpells(a);
    ReadSpells(b);
    EqualNumerals(Read(a).value, Read(b).value, limited);
  }

  /** Different values never share a text. */
  lemma {:induction false} OneTextOneValue(a: string, b: string, limited: bool)
    requires NormalText(a, limited).Ok? && NormalText(a, limited) == NormalText(b, limited)
    ensures Value(Read(a).value) == Value(Read(b).value)
  {
    ValueIsPreserved(a, limited);
    ValueIsPreserved(b, limited);
  }

  lemma {:induction false} NormalIsIdempotent(input: string, limited: bool)
    requires NormalText(input, limited).Ok?
    ensures NormalText(NormalText(input, limited).text, limited) == NormalText(input, limited)
  {
    var text := NormalText(input, limited).text;
    ValueIsPreserved(input, limited);
    TextIsPlainJson(input, limited);
    EqualValuesGetOneText(text, input, limited);
  }

  // ----- When there is an answer ---------------------------------------------------------

  /** The input is a numeral whose exponent fits 32 bits. */
  ghost predicate IsReadable(input: string)
  {
    exists p :: WellFormed(p) && Spell(p) == input && -0x8000_0000 <= Exponent(p) < 0x8000_0000
  }

  /** Without the limit every readable numeral has a text, and nothing else has. */
  lemma {:induction false} AnsweredIffReadable(input: string)
    ensures NormalText(input, false).Ok? <==> IsReadable(input)
  {
    if NormalText(input, false).Ok? {
      ReadSpells(input);
    }
    if IsReadable(input) {
      var p :| WellFormed(p) && Spell(p) == input && InRange(Exponent(p));
      ReadSpelled(p);
    }
  }

  /** With the limit the answer is the same text, refused exactly when what follows its sign is
      longer than the limit. */
  lemma {:induction false} LimitRefusesLongTexts(input: string)
    requires IsReadable(input)
    ensures NormalText(input, false).Ok?
    ensures
      var text := NormalText(input, false).text;
      var length := |text| - (if Value(Read(input).value) < 0.0 then 1 else 0);
      NormalText(input, true) == if length > MAX_JSON_BYTES then Err else Ok(text)
  {
    AnsweredIffReadable(input);
    ReadSpells(input);
    ZeroIffNoDigits(Read(input).value);
    if Value(Read(input).value) != 0.0 {
      PredictedLengthIsExact(input, false);
    }
  }

  // ----- The method ----------------------------------------------------------------------

  /** `normalizeJSONNumber`. */
  method NormalizeJsonNumber(input: string, limited: bool) returns (result: Result)
    ensures result == NormalText(input, limited)
  {
    var read := Read(input);
    if read.None? || !InRange(Exponent(read.value)) {
      return Err;
    }
    ReadSpells(input);
    result := NormalizeNumeral(read.value, limited);
  }

  /** Lines 200-237. */
  method NormalizeNumeral(p: Numeral, limited: bool) returns (result: Result)
    requires WellFormed(p) && InRange(Exponent(p))
    ensures result == Normal(p, limited)
  {
    var mantissa := p.integer + p.fraction;
    var leading := LeadingZeros(mantissa);
    var significant := mantissa[leading..];
    if significant == "" {
      return Ok("0");
    }
    var position := |p.integer| - leading + Exponent(p);
    assert significant == Significant(p) && position == Position(p);
    TrimmedIsTidy(p);
    significant := TrimZeros(significant, position);
    result := Write(p.negative, significant, position, limited);
  }

  /** Lines 206-208. */
  method TrimZeros(m: string, position: int) returns (t: string)
    ensures t == Trim(m, position)
  {
    t := m;
    while t != "" && t[|t| - 1] == '0' && position < |t|
      invariant Trim(t, position) == Trim(m, position)
      decreases |t|
    {
      t := t[..|t| - 1];
    }
  }

  /** Lines 209-237. */
  method Write(negative: bool, m: string, position: int, limited: bool) returns (result: Result)
    requires Tidy(m, position)
    ensures result == (if limited && Predicted(m, position) > MAX_JSON_BYTES then Err else Ok(Spell(Layout(negative, m, position))))
  {
    var predicted: int := |m|;
    if position <= 0 {
      predicted := predicted + 2 - position;
    } else if position >= |m| {
      predicted := position;
    } else {
      predicted := predicted + 1;
    }
    if (limited && predicted > MAX_JSON_BYTES) || predicted < 0 {
      return Err;
    }
    var digits := WriteDigits(m, position);
    PlainSpelling(Layout(negative, m, position));
    result := Ok((if negative then "-" else "") + digits);
  }

  lemma {:induction false} PlainSpelling(p: Numeral)
    requires p.power.None?
    ensures Spell(p) == (if p.negative then "-" else "") + Mantissa(p)
  {
    assert Mantissa(p) + "" == Mantissa(p);
  }

  /** Lines 224-236. */
  method WriteDigits(m: string, position: int) returns (digits: string)
    requires Tidy(m, position)
    ensures forall negative :: digits == Mantissa(Layout(negative, m, position))
  {
    if position <= 0 {
      digits := "0" + ("." + (Zeros(-position) + m));
    } else if position >= |m| {
      digits := m + Zeros(position - |m|);
      assert digits + "" == digits;
    } else {
      digits := m[..position] + ("." + m[position..]);
    }
  }
}
