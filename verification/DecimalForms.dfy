/** The strings that `parseUnits` accepts, and what each of them says. */
module DecimalForms {
  import opened Wrappers
  import opened Strings
  import opened Decimal

  // ---------------------------------------------------------------- every form of a number

  /** An optional sign, digits, an optional point, and digits behind it. */
  function Written(negative: bool, whole: string, point: bool, fraction: string): string {
    if negative then "-" + WrittenUnsigned(whole, point, fraction) else WrittenUnsigned(whole, point, fraction)
  }

  function WrittenUnsigned(whole: string, point: bool, fraction: string): string {
    whole + if point then "." + fraction else ""
  }

  lemma WrittenUnsignedParts(whole: string, point: bool, fraction: string)
    requires AllDigits(whole) && AllDigits(fraction) && (!point ==> fraction == "")
    ensures
      var u := WrittenUnsigned(whole, point, fraction);
      && BeforePoint(u) == whole && AfterPoint(u) == fraction
      && (u != "" ==> u[0] != '-' && !IsSpace(u[0]) && !IsSpace(u[|u| - 1]))
  {
    var u := WrittenUnsigned(whole, point, fraction);
    DigitsHaveNoPoint(whole, if point then "." + fraction else "");
    if point {
      assert u[|whole| + 1..] == fraction;
    }
    if u != "" {
      FirstIsNoSpace(whole, point, fraction);
      LastIsNoSpace(whole, point, fraction);
    }
  }

  lemma FirstIsNoSpace(whole: string, point: bool, fraction: string)
    requires AllDigits(whole) && WrittenUnsigned(whole, point, fraction) != ""
    ensures var c := WrittenUnsigned(whole, point, fraction)[0]; c != '-' && !IsSpace(c)
  {
    if whole != "" {
      DigitsFromFront(whole);
      DigitIsNoSpace(whole[0]);
    }
  }

  lemma LastIsNoSpace(whole: string, point: bool, fraction: string)
    requires AllDigits(whole) && AllDigits(fraction) && (!point ==> fraction == "")
    requires WrittenUnsigned(whole, point, fraction) != ""
    ensures var u := WrittenUnsigned(whole, point, fraction); !IsSpace(u[|u| - 1])
  {
    var u := WrittenUnsigned(whole, point, fraction);
    if fraction != "" {
      assert u[|u| - 1] == fraction[|fraction| - 1];
      DigitIsNoSpace(fraction[|fraction| - 1]);
    } else if !point {
      assert u == whole;
      DigitIsNoSpace(whole[|whole| - 1]);
    } else {
      assert u[|u| - 1] == '.';
    }
  }

  lemma MinusParts(u: string)
    ensures
      var t := "-" + u;
      WithoutSign(t) == u && BeforePoint(t) == "-" + BeforePoint(u) && AfterPoint(t) == AfterPoint(u)
  {
    var t := "-" + u;
    assert t[0] == '-' && t[1..] == u;
    assert BeforePoint(t) == ['-'] + BeforePoint(u);
    var k := |BeforePoint(u)|;
    if k < |u| {
      assert t[k + 2..] == u[k + 1..];
    }
  }

  lemma WrittenParts(negative: bool, whole: string, point: bool, fraction: string)
    requires AllDigits(whole) && AllDigits(fraction) && (!point ==> fraction == "") && whole + fraction != ""
    ensures
      var t := Written(negative, whole, point, fraction);
      && Trim(t) == t && t != "" && t != "." && t != "-." && WellFormed(t)
      && BeforePoint(t) == (if negative then "-" + whole else whole) && AfterPoint(t) == fraction
  {
    var u := WrittenUnsigned(whole, point, fraction);
    WrittenUnsignedParts(whole, point, fraction);
    if negative {
      MinusWritten(u);
    } else {
      TrimNothing(u);
      NotAPoint(u);
    }
  }

  lemma MinusWritten(u: string)
    requires u != "" && !IsSpace(u[|u| - 1]) && AllDigits(BeforePoint(u)) && AllDigits(AfterPoint(u))
    requires BeforePoint(u) + AfterPoint(u) != ""
    ensures
      var t := "-" + u;
      && Trim(t) == t && t != "." && t != "-." && WellFormed(t)
      && BeforePoint(t) == "-" + BeforePoint(u) && AfterPoint(t) == AfterPoint(u)
  {
    var t := "-" + u;
    MinusParts(u);
    assert t[|t| - 1] == u[|u| - 1];
    TrimNothing(t);
    NotAPoint(u);
    assert t[1..] == u;
  }

  lemma NotAPoint(u: string)
    requires BeforePoint(u) + AfterPoint(u) != ""
    ensures u != "" && u != "." && (u[0] != '-' ==> u != "-.")
  {
    PointHasNoDigits();
    assert "-."[0] == '-';
  }

  lemma PointHasNoDigits()
    ensures BeforePoint(".") == "" && AfterPoint(".") == ""
    ensures BeforePoint("-.") == "-" && AfterPoint("-.") == ""
  {
    MinusParts(".");
    assert "-" + "." == "-.";
    assert "."[1..] == "";
  }

  /**
   Every number in that form, with a digit on either side of the point, parses to what it says in
   units of the exponent's power of ten; with more decimals than the exponent it is refused.
   */
  lemma ParseWritten(negative: bool, whole: string, point: bool, fraction: string, d: nat, n: nat)
    requires AllDigits(whole) && AllDigits(fraction) && (!point ==> fraction == "") && whole + fraction != ""
    requires |fraction| <= d
    requires n == Value(whole) * Pow10(d) + Value(fraction) * Pow10(d - |fraction|)
    ensures ParseUnits(Written(negative, whole, point, fraction), d) == Ok(Negated(negative, n))
  {
    WrittenNumber(whole, fraction, d, n);
    ParseAs(negative, whole, point, fraction, d, n);
  }

  lemma ParseAs(negative: bool, whole: string, point: bool, fraction: string, d: nat, n: nat)
    requires AllDigits(whole) && AllDigits(fraction) && (!point ==> fraction == "") && whole + fraction != ""
    requires |fraction| <= d && AllDigits(whole + PadEnd(fraction, d)) && Value(whole + PadEnd(fraction, d)) == n
    ensures ParseUnits(Written(negative, whole, point, fraction), d) == Ok(Negated(negative, n))
  {
    ParseDigits(negative, whole, point, fraction, d);
  }

  lemma ParseTooLong(negative: bool, whole: string, point: bool, fraction: string, d: nat)
    requires AllDigits(whole) && AllDigits(fraction) && (!point ==> fraction == "") && whole + fraction != ""
    requires |fraction| > d
    ensures ParseUnits(Written(negative, whole, point, fraction), d) == Err(TooManyDecimals)
  {
    WrittenParts(negative, whole, point, fraction);
  }

  /** What is handed to `BigInt` is the digits with the fraction padded. */
  lemma ParseDigits(negative: bool, whole: string, point: bool, fraction: string, d: nat)
    requires AllDigits(whole) && AllDigits(fraction) && (!point ==> fraction == "") && whole + fraction != ""
    requires |fraction| <= d
    ensures AllDigits(whole + PadEnd(fraction, d))
    ensures ParseUnits(Written(negative, whole, point, fraction), d) ==
            Ok(Negated(negative, Value(whole + PadEnd(fraction, d))))
  {
    WrittenParts(negative, whole, point, fraction);
    PadEndDigits(fraction, d);
    Concat(whole, PadEnd(fraction, d));
    CombinedValue(negative, whole, PadEnd(fraction, d));
  }

  lemma WrittenNumber(whole: string, fraction: string, d: nat, n: nat)
    requires AllDigits(whole) && AllDigits(fraction) && |fraction| <= d
    requires n == Value(whole) * Pow10(d) + Value(fraction) * Pow10(d - |fraction|)
    ensures AllDigits(whole + PadEnd(fraction, d)) && Value(whole + PadEnd(fraction, d)) == n
  {
    PadEndDigits(fraction, d);
    WholeAndPadded(whole, PadEnd(fraction, d), d);
  }

  /** The two digit strings put together, with a zero for a missing whole part. */
  lemma CombinedValue(negative: bool, whole: string, padded: string)
    requires AllDigits(whole) && AllDigits(padded) && AllDigits(whole + padded) && whole + padded != ""
    ensures
      var integerPart := if negative then "-" + whole else if whole == "" then "0" else whole;
      BigIntOf(integerPart + padded) == Some(Negated(negative, Value(whole + padded)))
  {
    if negative || whole != "" {
      SignedValue(negative, whole, padded);
    } else {
      ZeroInFront(padded);
      SignedValue(false, "0", padded);
    }
  }

  lemma WholeAndPadded(whole: string, padded: string, d: nat)
    requires AllDigits(whole) && AllDigits(padded) && |padded| == d
    ensures AllDigits(whole + padded) && Value(whole + padded) == Value(whole) * Pow10(d) + Value(padded)
  {
    Concat(whole, padded);
  }

  lemma ZeroInFront(s: string)
    requires AllDigits(s)
    ensures AllDigits("0" + s) && Value("0" + s) == Value(s) && AllDigits("" + s) && Value("" + s) == Value(s)
  {
    LeadingZeros(1, s);
    assert Zeros(1) == Zeros(0) + "0" && Zeros(0) + "0" == "0";
    assert "" + s == s;
  }

  /** And nothing else parses, but for white space around it and a minus sign alone. */
  lemma ParsesOnlyWritten(s: string, d: nat) returns (negative: bool, whole: string, point: bool, fraction: string)
    requires ParseUnits(s, d).Ok?
    ensures AllDigits(whole) && AllDigits(fraction) && (!point ==> fraction == "") && |fraction| <= d
    ensures Trim(s) == Written(negative, whole, point, fraction)
    ensures whole + fraction != "" || (negative && !point)
  {
    var t := Trim(s);
    negative := t[0] == '-';
    var u := WithoutSign(t);
    AroundPoint(u);
    whole, point, fraction := BeforePoint(u), |BeforePoint(u)| < |u|, AfterPoint(u);
    assert u == WrittenUnsigned(whole, point, fraction);
    if negative {
      assert t == "-" + u;
      MinusParts(u);
    }
    if whole + fraction == "" {
      assert whole == "" && fraction == "";
      assert u == "" || u == ".";
    }
  }

  // ---------------------------------------------------------------- white space

  predicate Blank(s: string) {
    forall i :: 0 <= i < |s| ==> IsSpace(s[i])
  }

  lemma {:induction false} TrimLeftBlank(a: string, s: string)
    requires Blank(a)
    ensures TrimLeft(a + s) == TrimLeft(s)
  {
    if a == "" {
      assert a + s == s;
    } else {
      assert (a + s)[1..] == a[1..] + s;
      TrimLeftBlank(a[1..], s);
    }
  }

  lemma {:induction false} TrimRightBlank(s: string, b: string)
    requires Blank(b)
    ensures TrimRight(s + b) == TrimRight(s)
  {
    if b == "" {
      assert s + b == s;
    } else {
      var front := b[..|b| - 1];
      assert (s + b)[..|s + b| - 1] == s + front;
      TrimRightBlank(s, front);
    }
  }

  lemma {:induction false} TrimLeftAppend(s: string, b: string)
    requires s != "" && !Blank(s)
    ensures TrimLeft(s + b) == TrimLeft(s) + b
  {
    if IsSpace(s[0]) {
      assert (s + b)[1..] == s[1..] + b;
      assert !Blank(s[1..]) by {
        var i :| 0 <= i < |s| && !IsSpace(s[i]);
        assert s[1..][i - 1] == s[i];
      }
      TrimLeftAppend(s[1..], b);
    }
  }

  lemma {:induction false} TrimOfBlank(s: string)
    requires Blank(s)
    ensures Trim(s) == ""
  {
    TrimLeftBlank(s, "");
    assert s + "" == s;
  }

  /** White space around a number does not matter, with any exponent. */
  lemma SpacesDoNotMatter(a: string, s: string, b: string, exponent: int)
    requires Blank(a) && Blank(b)
    ensures ParseUnits(a + s + b, exponent) == ParseUnits(s, exponent)
  {
    assert a + s + b == a + (s + b);
    TrimLeftBlank(a, s + b);
    if Blank(s) {
      assert Blank(a + s + b);
      TrimOfBlank(a + s + b);
      TrimOfBlank(s);
    } else {
      TrimLeftAppend(s, b);
      TrimRightBlank(TrimLeft(s), b);
    }
  }

  // ---------------------------------------------------------------- the printed form is canonical

  lemma {:induction false} TrimmedEnds(s: string)
    ensures TrimZeros(s) != "" ==> TrimZeros(s)[|TrimZeros(s)| - 1] != '0'
  {
    if s != "" && s[|s| - 1] == '0' {
      TrimmedEnds(s[..|s| - 1]);
    }
  }

  lemma {:induction false} NoLeadingZero(n: nat)
    ensures |ToString(n)| > 1 ==> ToString(n)[0] != '0'
    ensures n > 0 ==> ToString(n)[0] != '0'
  {
    if n >= 10 {
      NoLeadingZero(n / 10);
    }
  }

  /**
   What is printed is a minus sign exactly for a negative value, digits without a leading zero,
   and, unless they would all be zeros, a point and digits that do not end in a zero, no more
   than the decimals or the precision allow.
   */
  lemma PrintedIsCanonical(v: int, d: nat, precision: Option<nat>, whole: string, fraction: string)
    requires whole == ToString(Quot(Abs(v), Pow10(d))) && fraction == Fraction(Rem(Abs(v), Pow10(d)), d, precision)
    ensures Formatted(v, d, precision) == (if v < 0 then "-" else "") + (if fraction == "" then whole else whole + "." + fraction)
    ensures |whole| > 1 ==> whole[0] != '0'
    ensures fraction != "" ==> fraction[|fraction| - 1] != '0'
    ensures |fraction| <= d && (precision.Some? ==> |fraction| <= precision.value)
  {
    NoLeadingZero(Quot(Abs(v), Pow10(d)));
    FractionIsCanonical(Rem(Abs(v), Pow10(d)), d, precision);
  }

  lemma FractionIsCanonical(remainder: nat, d: nat, precision: Option<nat>)
    requires remainder < Pow10(d)
    ensures
      var fraction := Fraction(remainder, d, precision);
      && (fraction != "" ==> fraction[|fraction| - 1] != '0')
      && |fraction| <= d && (precision.Some? ==> |fraction| <= precision.value)
  {
    PaddedValue(remainder, d);
    var digits := if d > 0 then PadStart(ToString(remainder), d) else "";
    TrimmedEnds(if precision.Some? && precision.value < |digits| then digits[..precision.value] else digits);
  }
}
