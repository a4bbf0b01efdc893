/**
 Printing and parsing of token amounts: `formatTokenUnits` against `parseUnits`.
 */
module Decimal {
  import opened Wrappers
  import opened Strings
  import opened Arithmetic

  // ---------------------------------------------------------------- digits

  function Pow10(k: nat): (p: nat)
    ensures p > 0
  {
    if k == 0 then 1 else 10 * Pow10(k - 1)
  }

  predicate IsDigit(c: char) {
    '0' <= c <= '9'
  }

  function DigitOf(c: char): (d: nat)
    requires IsDigit(c)
    ensures d < 10
  {
    c as nat - '0' as nat
  }

  function DigitChar(d: nat): (c: char)
    requires d < 10
    ensures IsDigit(c) && DigitOf(c) == d
  {
    '0' + d as char
  }

  predicate AllDigits(s: string) {
    s == "" || (IsDigit(s[|s| - 1]) && AllDigits(s[..|s| - 1]))
  }

  /** The number a digit string stands for. */
  function Value(s: string): nat
    requires AllDigits(s)
  {
    if s == "" then 0 else 10 * Value(s[..|s| - 1]) + DigitOf(s[|s| - 1])
  }

  /** `toString` of a non-negative bigint. */
  function ToString(n: nat): (s: string)
    ensures |s| > 0
  {
    if n < 10 then [DigitChar(n)] else ToString(n / 10) + [DigitChar(n % 10)]
  }

  lemma Snoc(s: string, c: char)
    requires AllDigits(s) && IsDigit(c)
    ensures AllDigits(s + [c]) && Value(s + [c]) == 10 * Value(s) + DigitOf(c)
  {
    assert (s + [c])[..|s|] == s;
  }

  lemma {:induction false} ToStringValue(n: nat)
    ensures AllDigits(ToString(n)) && Value(ToString(n)) == n
  {
    if n < 10 {
      Snoc("", DigitChar(n));
      assert "" + [DigitChar(n)] == [DigitChar(n)];
    } else {
      ToStringValue(n / 10);
      Snoc(ToString(n / 10), DigitChar(n % 10));
    }
  }

  lemma {:induction false} ToStringLength(n: nat, d: nat)
    requires d > 0 && n < Pow10(d)
    ensures |ToString(n)| <= d
  {
    if n >= 10 {
      assert Pow10(1) == 10;
      ToStringLength(n / 10, d - 1);
    }
  }

  lemma {:induction false} PowSum(a: nat, b: nat)
    ensures Pow10(a + b) == Pow10(a) * Pow10(b)
  {
    if b > 0 {
      PowSum(a, b - 1);
      assert Pow10(a + b) == 10 * Pow10(a + (b - 1));
      TimesTen(Pow10(a), Pow10(b - 1));
    }
  }

  lemma {:induction false} Concat(a: string, b: string)
    requires AllDigits(a) && AllDigits(b)
    ensures AllDigits(a + b) && Value(a + b) == Value(a) * Pow10(|b|) + Value(b)
  {
    if b == "" {
      assert a + b == a;
    } else {
      var front, c := b[..|b| - 1], b[|b| - 1];
      Concat(a, front);
      Snoc(a + front, c);
      assert a + b == (a + front) + [c];
      TimesTen(Value(a), Pow10(|front|));
    }
  }

  lemma TimesTen(x: nat, y: nat)
    ensures x * (10 * y) == 10 * (x * y)
  {
  }

  lemma {:induction false} Split(s: string, k: nat)
    requires AllDigits(s) && k <= |s|
    ensures AllDigits(s[..k]) && AllDigits(s[k..])
    ensures Value(s[k..]) < Pow10(|s| - k)
    decreases |s|
  {
    if k == |s| {
      assert s[..k] == s && s[k..] == "";
    } else {
      var front, c := s[..|s| - 1], s[|s| - 1];
      Split(front, k);
      assert front[..k] == s[..k];
      assert s[k..] == front[k..] + [c];
      Snoc(front[k..], c);
    }
  }

  // ---------------------------------------------------------------- division

  /** Quotient and remainder of non-negative bigints. */
  function Quot(n: nat, m: nat): nat
    requires m > 0
  {
    if n < m then 0 else 1 + Quot(n - m, m)
  }

  function Rem(n: nat, m: nat): (r: nat)
    requires m > 0
    ensures r < m
  {
    if n < m then n else Rem(n - m, m)
  }

  lemma {:induction false} QuotRem(n: nat, m: nat)
    requires m > 0
    ensures n == m * Quot(n, m) + Rem(n, m)
  {
    if n >= m {
      QuotRem(n - m, m);
      assert m * (1 + Quot(n - m, m)) == m + m * Quot(n - m, m);
    }
  }

  lemma {:induction false} QuotIs(n: nat, m: nat, q: nat, r: nat)
    requires r < m && n == m * q + r
    ensures Quot(n, m) == q && Rem(n, m) == r
    decreases q
  {
    if q > 0 {
      assert m * q == m * (q - 1) + m;
      QuotIs(n - m, m, q - 1, r);
    }
  }

  /** The operators of the language agree with them. */
  lemma {:induction false} SlashIsQuot(n: nat, m: nat)
    requires m > 0
    ensures n / m == Quot(n, m) && n % m == Rem(n, m)
  {
    QuotRem(n, m);
    Euclid(n, m, Quot(n, m), Rem(n, m));
  }

  /** The leading digits are the quotient, the others the remainder. */
  lemma PrefixIsQuotient(s: string, k: nat)
    requires AllDigits(s) && k <= |s|
    ensures AllDigits(s[..k]) && Value(s[..k]) == Quot(Value(s), Pow10(|s| - k))
  {
    Split(s, k);
    assert s == s[..k] + s[k..];
    JoinedQuotient(s[..k], s[k..]);
  }

  lemma JoinedQuotient(front: string, back: string)
    requires AllDigits(front) && AllDigits(back) && Value(back) < Pow10(|back|)
    ensures AllDigits(front + back) && Quot(Value(front + back), Pow10(|back|)) == Value(front)
  {
    Concat(front, back);
    QuotOfSum(Value(front), Value(back), Pow10(|back|));
  }

  lemma QuotOfSum(q: nat, r: nat, m: nat)
    requires r < m
    ensures Quot(q * m + r, m) == q
  {
    QuotIs(q * m + r, m, q, r);
  }

  function Zeros(k: nat): (s: string)
    ensures |s| == k
  {
    if k == 0 then "" else Zeros(k - 1) + "0"
  }

  lemma {:induction false} ZerosValue(k: nat)
    ensures AllDigits(Zeros(k)) && Value(Zeros(k)) == 0
  {
    if k > 0 {
      ZerosValue(k - 1);
      Snoc(Zeros(k - 1), '0');
    }
  }

  lemma {:induction false} ZerosConcat(a: nat, b: nat)
    ensures Zeros(a) + Zeros(b) == Zeros(a + b)
  {
    if b > 0 {
      ZerosConcat(a, b - 1);
      assert Zeros(a) + Zeros(b) == (Zeros(a) + Zeros(b - 1)) + "0";
    }
  }

  function PadStart(s: string, width: nat): string {
    if |s| >= width then s else Zeros(width - |s|) + s
  }

  function PadEnd(s: string, width: nat): string {
    if |s| >= width then s else s + Zeros(width - |s|)
  }

  /** `replace(/0+$/, '')`. */
  function TrimZeros(s: string): (r: string)
    ensures |r| <= |s|
  {
    if s != "" && s[|s| - 1] == '0' then TrimZeros(s[..|s| - 1]) else s
  }

  lemma {:induction false} TrimZerosInverse(s: string)
    ensures TrimZeros(s) + Zeros(|s| - |TrimZeros(s)|) == s
  {
    if s != "" && s[|s| - 1] == '0' {
      var front := s[..|s| - 1];
      TrimZerosInverse(front);
      assert s == front + "0";
      var t := TrimZeros(front);
      assert t + Zeros(|s| - |t|) == (t + Zeros(|front| - |t|)) + "0";
    }
  }

  // ---------------------------------------------------------------- formatTokenUnits

  datatype Error =
    | BadDecimals | BadPrecision
    | NegativeExponent | EmptyValue | BadFormat | TooManyDecimals | NotANumber

  function Fraction(remainder: nat, decimals: nat, precision: Option<nat>): string {
    var digits := if decimals > 0 then PadStart(ToString(remainder), decimals) else "";
    var cut := if precision.Some? && precision.value < |digits| then digits[..precision.value] else digits;
    TrimZeros(cut)
  }

  function Abs(v: int): nat {
    if v < 0 then 0 - v else v
  }

  /** An optional sign, digits, and possibly a point and digits. */
  function Printed(negative: bool, whole: string, fraction: string): string {
    (if negative then "-" else "") + Unsigned(whole, fraction)
  }

  function Unsigned(whole: string, fraction: string): string {
    if fraction == "" then whole else whole + "." + fraction
  }

  /** What the printed form is, for valid arguments. */
  function Formatted(value: int, decimals: nat, precision: Option<nat>): string {
    var scale := Pow10(decimals);
    Printed(value < 0, ToString(Quot(Abs(value), scale)), Fraction(Rem(Abs(value), scale), decimals, precision))
  }

  method FormatTokenUnits(value: int, decimals: int, precision: Option<int>) returns (r: Outcome<string, Error>)
    ensures r == if decimals < 0 then Err(BadDecimals)
                 else if precision.Some? && precision.value < 0 then Err(BadPrecision)
                 else Ok(Formatted(value, decimals, if precision.Some? then Some(precision.value as nat) else None))
  {
    if decimals < 0 {
      return Err(BadDecimals);
    }
    if precision.Some? && precision.value < 0 {
      return Err(BadPrecision);
    }
    var negative := value < 0;
    var absolute := Abs(value);
    var scale := 1;
    for i := 0 to decimals
      invariant scale == Pow10(i)
    {
      scale := scale * 10;
    }
    SlashIsQuot(absolute, scale);
    var whole, remainder := absolute / scale, absolute % scale;
    var fraction := if decimals > 0 then PadStart(ToString(remainder), decimals) else "";
    if precision.Some? && precision.value < |fraction| {
      fraction := fraction[..precision.value];
    }
    fraction := TrimZeros(fraction);
    var sign := if negative then "-" else "";
    return Ok(sign + (if fraction == "" then ToString(whole) else ToString(whole) + "." + fraction));
  }

  // ---------------------------------------------------------------- parseUnits

  function TrimLeft(s: string): string {
    if s != "" && IsSpace(s[0]) then TrimLeft(s[1..]) else s
  }

  function TrimRight(s: string): string {
    if s != "" && IsSpace(s[|s| - 1]) then TrimRight(s[..|s| - 1]) else s
  }

  function Trim(s: string): string {
    TrimRight(TrimLeft(s))
  }

  /** The part before the first decimal point, and the part after it. */
  function BeforePoint(s: string): (r: string)
    ensures |r| <= |s|
  {
    if s == "" || s[0] == '.' then "" else [s[0]] + BeforePoint(s[1..])
  }

  function AfterPoint(s: string): string {
    if |BeforePoint(s)| == |s| then "" else s[|BeforePoint(s)| + 1..]
  }

  function WithoutSign(s: string): string {
    if s != "" && s[0] == '-' then s[1..] else s
  }

  /** The source's regular expression: a sign, digits, a point, digits, all optional. */
  predicate WellFormed(s: string) {
    AllDigits(BeforePoint(WithoutSign(s))) && AllDigits(AfterPoint(WithoutSign(s)))
  }

  /** `BigInt` of a string of an optional sign and digits. */
  function BigIntOf(s: string): Option<int> {
    if s == "" then Some(0)
    else if AllDigits(s) then Some(Value(s))
    else if s[0] == '-' && |s| > 1 && AllDigits(s[1..]) then Some(0 - Value(s[1..]))
    else None
  }

  function ParseUnits(value: string, exponent: int): Outcome<int, Error> {
    var trimmed := Trim(value);
    if exponent < 0 then Err(NegativeExponent)
    else if trimmed == "" then Err(EmptyValue)
    else if !WellFormed(trimmed) || trimmed == "." || trimmed == "-." then Err(BadFormat)
    else
      var integerPart := if BeforePoint(trimmed) == "" then "0" else BeforePoint(trimmed);
      var fractionalPart := AfterPoint(trimmed);
      if |fractionalPart| > exponent then Err(TooManyDecimals)
      else
        var n := BigIntOf(integerPart + PadEnd(fractionalPart, exponent));
        if n.None? then Err(NotANumber) else Ok(n.value)
  }

  // ---------------------------------------------------------------- reading a printed number

  lemma {:induction false} DigitsFromFront(s: string)
    requires AllDigits(s) && s != ""
    ensures IsDigit(s[0]) && AllDigits(s[1..])
  {
    var front := s[..|s| - 1];
    if front != "" {
      DigitsFromFront(front);
      Snoc(front[1..], s[|s| - 1]);
      assert s[1..] == front[1..] + [s[|s| - 1]];
    } else {
      assert s[1..] == "";
    }
  }

  lemma {:induction false} DigitsHaveNoPoint(s: string, rest: string)
    requires AllDigits(s) && (rest == "" || rest[0] == '.')
    ensures BeforePoint(s + rest) == s
    decreases |s|
  {
    if s == "" {
      assert s + rest == rest;
    } else {
      DigitsFromFront(s);
      DigitsHaveNoPoint(s[1..], rest);
      assert (s + rest)[1..] == s[1..] + rest;
      assert s == [s[0]] + s[1..];
    }
  }

  lemma DigitIsNoSpace(c: char)
    requires IsDigit(c)
    ensures !IsSpace(c) && c != '-' && c != '.'
  {
  }

  lemma TrimNothing(s: string)
    requires s != "" && !IsSpace(s[0]) && !IsSpace(s[|s| - 1])
    ensures Trim(s) == s
  {
  }

  lemma UnsignedParts(whole: string, fraction: string)
    requires whole != "" && AllDigits(whole) && AllDigits(fraction)
    ensures
      var s := Unsigned(whole, fraction);
      s != "" && IsDigit(s[0]) && IsDigit(s[|s| - 1]) && BeforePoint(s) == whole && AfterPoint(s) == fraction
  {
    var s := Unsigned(whole, fraction);
    DigitsFromFront(whole);
    if fraction == "" {
      DigitsHaveNoPoint(whole, "");
      assert whole + "" == whole;
    } else {
      PointParts(whole, fraction);
      DigitsHaveNoPoint(whole, "." + fraction);
    }
  }

  lemma PointParts(whole: string, fraction: string)
    requires fraction != ""
    ensures
      var s := whole + "." + fraction;
      s == whole + ("." + fraction) && s[|whole| + 1..] == fraction && s[|s| - 1] == fraction[|fraction| - 1]
  {
  }

  lemma SignedParts(s: string)
    requires s != "" && IsDigit(s[0])
    ensures WithoutSign(s) == s && WithoutSign("-" + s) == s
    ensures BeforePoint("-" + s) == "-" + BeforePoint(s) && AfterPoint("-" + s) == AfterPoint(s)
  {
    DigitIsNoSpace(s[0]);
    var t := "-" + s;
    assert t[0] == '-' && t[1..] == s;
    assert BeforePoint(t) == ['-'] + BeforePoint(s);
    var k := |BeforePoint(s)|;
    if k < |s| {
      assert t[k + 2..] == s[k + 1..];
    }
  }

  lemma PrintedParts(negative: bool, whole: string, fraction: string)
    requires whole != "" && AllDigits(whole) && AllDigits(fraction)
    ensures
      var s := Printed(negative, whole, fraction);
      && Trim(s) == s && s != "" && s != "." && s != "-." && WellFormed(s)
      && BeforePoint(s) == (if negative then "-" + whole else whole) && AfterPoint(s) == fraction
  {
    var u := Unsigned(whole, fraction);
    UnsignedParts(whole, fraction);
    SignedParts(u);
    DigitIsNoSpace(u[0]);
    DigitIsNoSpace(u[|u| - 1]);
    var s := Printed(negative, whole, fraction);
    if negative {
      assert s == "-" + u && s[0] == '-' && s[1] == u[0];
    } else {
      assert s == u;
    }
    TrimNothing(s);
  }

  /** `BigInt` of an optional sign and digits. */
  lemma SignedValue(negative: bool, whole: string, padded: string)
    requires whole + padded != "" && AllDigits(whole + padded)
    ensures BigIntOf((if negative then "-" + whole else whole) + padded) ==
            Some(Negated(negative, Value(whole + padded)))
  {
    if negative {
      var s := "-" + whole + padded;
      assert s[1..] == whole + padded;
      MinusIsNoDigit(s);
    }
  }

  /** `toString` of any bigint, and of an integer number. */
  function SignedToString(n: int): string {
    if n < 0 then "-" + ToString(0 - n) else ToString(n)
  }

  /** It reads back as itself, so different integers print differently. */
  lemma SignedReadsBack(n: int)
    ensures BigIntOf(SignedToString(n)) == Some(n)
  {
    var size := if n < 0 then 0 - n else n;
    ToStringValue(size);
    if n < 0 {
      assert SignedToString(n)[1..] == ToString(size);
      MinusIsNoDigit(SignedToString(n));
    }
  }

  lemma MinusIsNoDigit(s: string)
    requires s != "" && s[0] == '-'
    ensures !AllDigits(s)
  {
    if AllDigits(s) {
      DigitsFromFront(s);
    }
  }

  lemma PadEndDigits(fraction: string, d: nat)
    requires AllDigits(fraction) && |fraction| <= d
    ensures AllDigits(PadEnd(fraction, d)) && |PadEnd(fraction, d)| == d
    ensures Value(PadEnd(fraction, d)) == Value(fraction) * Pow10(d - |fraction|)
  {
    PadEndIs(fraction, d);
    ZerosValue(d - |fraction|);
    Concat(fraction, Zeros(d - |fraction|));
  }

  lemma ParsePrinted(negative: bool, whole: string, fraction: string, d: nat)
    requires whole != "" && AllDigits(whole) && AllDigits(fraction) && |fraction| <= d
    ensures AllDigits(whole + PadEnd(fraction, d))
    ensures
      ParseUnits(Printed(negative, whole, fraction), d) == Ok(Negated(negative, Value(whole + PadEnd(fraction, d))))
  {
    var padded := PadEnd(fraction, d);
    PrintedParts(negative, whole, fraction);
    PadEndDigits(fraction, d);
    Concat(whole, padded);
    SignedValue(negative, whole, padded);
  }

  function Negated(negative: bool, n: nat): int {
    if negative then 0 - n else n
  }

  // ---------------------------------------------------------------- the round trip

  /** `v` cut down, toward zero, to a multiple of `unit`. */
  function TruncateTo(v: int, unit: nat): int
    requires unit > 0
  {
    Negated(v < 0, Quot(Abs(v), unit) * unit)
  }

  /** What that means: a multiple of the unit, less than one unit from `v`, on the side of zero. */
  lemma TruncateMeaning(v: int, unit: nat)
    requires unit > 0
    ensures Abs(v) - Abs(TruncateTo(v, unit)) == Rem(Abs(v), unit)
    ensures v >= 0 ==> 0 <= TruncateTo(v, unit) <= v
    ensures v <= 0 ==> v <= TruncateTo(v, unit) <= 0
    ensures Rem(Abs(TruncateTo(v, unit)), unit) == 0
  {
    QuotRem(Abs(v), unit);
    var q := Quot(Abs(v), unit);
    assert unit * q == q * unit >= 0;
    QuotIs(q * unit, unit, q, 0);
  }

  /** The kept digits of the fraction, before zeros are trimmed. */
  lemma CutValue(digits: string, kept: nat, d: nat)
    requires AllDigits(digits) && |digits| == d && kept <= d
    ensures AllDigits(TrimZeros(digits[..kept])) && |TrimZeros(digits[..kept])| <= d
    ensures AllDigits(PadEnd(TrimZeros(digits[..kept]), d))
    ensures Value(PadEnd(TrimZeros(digits[..kept]), d)) == Quot(Value(digits), Pow10(d - kept)) * Pow10(d - kept)
  {
    var cut := digits[..kept];
    PrefixIsQuotient(digits, kept);
    TrimmedPadding(cut, d);
    PadEndDigits(cut, d);
  }

  /** Trimming the zeros at the end does not change the padded digits. */
  lemma TrimmedPadding(cut: string, d: nat)
    requires AllDigits(cut) && |cut| <= d
    ensures AllDigits(TrimZeros(cut)) && PadEnd(TrimZeros(cut), d) == PadEnd(cut, d)
  {
    var f := TrimZeros(cut);
    var trimmed := |cut| - |f|;
    TrimmedDigits(cut);
    TrimZerosInverse(cut);
    PadTwice(f, trimmed, d);
  }

  lemma {:induction false} TrimmedDigits(s: string)
    requires AllDigits(s)
    ensures AllDigits(TrimZeros(s))
  {
    if s != "" && s[|s| - 1] == '0' {
      TrimmedDigits(s[..|s| - 1]);
    }
  }

  lemma PadTwice(f: string, k: nat, d: nat)
    requires |f| + k <= d
    ensures PadEnd(f, d) == PadEnd(f + Zeros(k), d)
  {
    var rest := d - |f| - k;
    PadEndIs(f, d);
    PadEndIs(f + Zeros(k), d);
    ZerosConcat(k, rest);
    Regroup(f, Zeros(k), Zeros(rest));
  }

  lemma Regroup(a: string, b: string, c: string)
    ensures a + (b + c) == (a + b) + c
  {
  }

  lemma PadEndIs(s: string, d: nat)
    requires |s| <= d
    ensures PadEnd(s, d) == s + Zeros(d - |s|) && |PadEnd(s, d)| == d
  {
    assert s + Zeros(0) == s;
  }

  function Kept(d: nat, precision: Option<nat>): (k: nat)
    ensures k <= d
  {
    if precision.Some? && precision.value < d then precision.value else d
  }

  /** The fraction printed with some precision, read back with `d` decimals. */
  lemma FractionValue(remainder: nat, d: nat, precision: Option<nat>)
    requires remainder < Pow10(d)
    ensures
      var f, unit := Fraction(remainder, d, precision), Pow10(d - Kept(d, precision));
      && AllDigits(f) && |f| <= d && AllDigits(PadEnd(f, d))
      && Value(PadEnd(f, d)) == Quot(remainder, unit) * unit
  {
    var digits := if d > 0 then PadStart(ToString(remainder), d) else "";
    PaddedValue(remainder, d);
    var kept := Kept(d, precision);
    CutValue(digits, kept, d);
    assert digits[..d] == digits;
    assert Fraction(remainder, d, precision) == TrimZeros(digits[..kept]);
  }

  lemma {:induction false} LeadingZeros(k: nat, s: string)
    requires AllDigits(s)
    ensures AllDigits(Zeros(k) + s) && Value(Zeros(k) + s) == Value(s)
    decreases |s|
  {
    ZerosValue(k);
    if s == "" {
      assert Zeros(k) + s == Zeros(k);
    } else {
      var front, c := s[..|s| - 1], s[|s| - 1];
      LeadingZeros(k, front);
      Snoc(Zeros(k) + front, c);
      assert Zeros(k) + s == (Zeros(k) + front) + [c];
    }
  }

  lemma PadStartValue(s: string, d: nat)
    requires AllDigits(s) && |s| <= d
    ensures AllDigits(PadStart(s, d)) && |PadStart(s, d)| == d && Value(PadStart(s, d)) == Value(s)
  {
    assert Zeros(0) + s == s;
    LeadingZeros(d - |s|, s);
  }

  lemma PaddedValue(remainder: nat, d: nat)
    requires remainder < Pow10(d)
    ensures
      var digits := if d > 0 then PadStart(ToString(remainder), d) else "";
      AllDigits(digits) && |digits| == d && Value(digits) == remainder
  {
    if d > 0 {
      ToStringValue(remainder);
      ToStringLength(remainder, d);
      PadStartValue(ToString(remainder), d);
    }
  }

  lemma Distribute(q: nat, r: nat, scale: nat, unit: nat, ratio: nat, a: nat, b: nat, n: nat)
    requires n == scale * q + r && r == unit * a + b && scale == unit * ratio
    ensures n == unit * (ratio * q + a) + b
    ensures (ratio * q + a) * unit == q * scale + a * unit
  {
    assert unit * (ratio * q) == (unit * ratio) * q;
  }

  /** Cutting the fraction cuts the number. */
  lemma TruncateSplit(n: nat, d: nat, k: nat)
    requires k <= d
    ensures Quot(n, Pow10(d)) * Pow10(d) + Quot(Rem(n, Pow10(d)), Pow10(k)) * Pow10(k) == Quot(n, Pow10(k)) * Pow10(k)
  {
    var scale, unit, ratio := Pow10(d), Pow10(k), Pow10(d - k);
    PowSum(k, d - k);
    QuotRem(n, scale);
    var q, r := Quot(n, scale), Rem(n, scale);
    QuotRem(r, unit);
    var a, b := Quot(r, unit), Rem(r, unit);
    Distribute(q, r, scale, unit, ratio, a, b, n);
    QuotIs(n, unit, ratio * q + a, b);
  }

  /**
   Parsing what was printed gives the value back, negative values included; with a precision
   below the number of decimals, the value truncated toward zero to that many decimals.
   */
  lemma FormatParseRoundTrip(v: int, d: nat, precision: Option<nat>)
    ensures ParseUnits(Formatted(v, d, precision), d) == Ok(TruncateTo(v, Pow10(d - Kept(d, precision))))
  {
    var n, scale, unit := Abs(v), Pow10(d), Pow10(d - Kept(d, precision));
    DigitsPrinted(n, d, precision);
    var digits := ToString(Quot(n, scale)) + PadEnd(Fraction(Rem(n, scale), d, precision), d);
    assert ParseUnits(Formatted(v, d, precision), d) == Ok(Negated(v < 0, Value(digits))) by {
      ToStringValue(Quot(n, scale));
      ParsePrinted(v < 0, ToString(Quot(n, scale)), Fraction(Rem(n, scale), d, precision), d);
    }
  }

  /** The digits that are read back, as a number. */
  lemma DigitsPrinted(n: nat, d: nat, precision: Option<nat>)
    ensures
      var f := Fraction(Rem(n, Pow10(d)), d, precision);
      var digits := ToString(Quot(n, Pow10(d))) + PadEnd(f, d);
      var unit := Pow10(d - Kept(d, precision));
      AllDigits(f) && |f| <= d && AllDigits(digits) && Value(digits) == Quot(n, unit) * unit
  {
    var scale := Pow10(d);
    FractionValue(Rem(n, scale), d, precision);
    JoinedValue(Quot(n, scale), Fraction(Rem(n, scale), d, precision), d);
    TruncateSplit(n, d, d - Kept(d, precision));
  }

  lemma JoinedValue(whole: nat, fraction: string, d: nat)
    requires AllDigits(fraction) && |fraction| <= d
    ensures AllDigits(PadEnd(fraction, d)) && AllDigits(ToString(whole) + PadEnd(fraction, d))
    ensures Value(ToString(whole) + PadEnd(fraction, d)) == whole * Pow10(d) + Value(PadEnd(fraction, d))
  {
    ToStringValue(whole);
    PadEndDigits(fraction, d);
    Concat(ToString(whole), PadEnd(fraction, d));
  }

  /** Without a precision nothing is lost. */
  lemma FormatParseExact(v: int, d: nat)
    ensures ParseUnits(Formatted(v, d, None), d) == Ok(v)
  {
    FormatParseRoundTrip(v, d, None);
    assert Pow10(d - Kept(d, None)) == 1;
    TruncateToOne(v);
  }

  lemma TruncateToOne(v: int)
    ensures TruncateTo(v, 1) == v
  {
    QuotRem(Abs(v), 1);
  }

  // ---------------------------------------------------------------- the exponent

  lemma PadOneMore(s: string, d: nat)
    requires |s| <= d
    ensures PadEnd(s, d + 1) == PadEnd(s, d) + "0"
  {
    assert s + Zeros(0) == s;
    assert Zeros(d + 1 - |s|) == Zeros(d - |s|) + "0";
    assert s + (Zeros(d - |s|) + "0") == (s + Zeros(d - |s|)) + "0";
  }

  lemma BigIntTimesTen(s: string)
    requires BigIntOf(s).Some? && s != ""
    ensures BigIntOf(s + "0") == Some(10 * BigIntOf(s).value)
  {
    if AllDigits(s) {
      Snoc(s, '0');
    } else {
      Snoc(s[1..], '0');
      assert (s + "0")[1..] == s[1..] + "0";
      if AllDigits(s + "0") {
        DigitsFromFront(s + "0");
      }
    }
  }

  /** A string that parses with an exponent parses with the next one, to ten times the value. */
  lemma OneMoreDecimal(s: string, d: nat)
    requires ParseUnits(s, d).Ok?
    ensures ParseUnits(s, d + 1) == Ok(10 * ParseUnits(s, d).value)
  {
    var trimmed := Trim(s);
    var integerPart := if BeforePoint(trimmed) == "" then "0" else BeforePoint(trimmed);
    var fraction := AfterPoint(trimmed);
    PadOneMore(fraction, d);
    BigIntTimesTen(integerPart + PadEnd(fraction, d));
    assert integerPart + (PadEnd(fraction, d) + "0") == (integerPart + PadEnd(fraction, d)) + "0";
  }

  // ---------------------------------------------------------------- strings without a digit

  predicate HasDigit(s: string) {
    exists i :: 0 <= i < |s| && IsDigit(s[i])
  }

  lemma DigitlessSlice(s: string, i: nat, j: nat)
    requires !HasDigit(s) && i <= j <= |s|
    ensures !HasDigit(s[i..j])
  {
    assert forall k :: 0 <= k < j - i ==> s[i..j][k] == s[i + k];
  }

  lemma {:induction false} DigitlessTrimLeft(s: string)
    requires !HasDigit(s)
    ensures !HasDigit(TrimLeft(s))
  {
    if s != "" && IsSpace(s[0]) {
      DigitlessSlice(s, 1, |s|);
      DigitlessTrimLeft(s[1..]);
    }
  }

  lemma {:induction false} DigitlessTrimRight(s: string)
    requires !HasDigit(s)
    ensures !HasDigit(TrimRight(s))
  {
    if s != "" && IsSpace(s[|s| - 1]) {
      DigitlessSlice(s, 0, |s| - 1);
      DigitlessTrimRight(s[..|s| - 1]);
    }
  }

  /** The string is what stands before the point, the point, and what stands after it. */
  lemma {:induction false} AroundPoint(s: string)
    ensures s == BeforePoint(s) + if |BeforePoint(s)| == |s| then "" else "." + AfterPoint(s)
  {
    if s != "" && s[0] != '.' {
      AroundPoint(s[1..]);
      var k := |BeforePoint(s[1..])|;
      if k < |s| - 1 {
        assert s[1..][k + 1..] == s[k + 2..];
      }
    }
  }

  /** Of the strings without a digit, the format check lets a lone minus sign through. */
  lemma DigitlessFormat(t: string)
    requires !HasDigit(t) && WellFormed(t) && t != "" && t != "." && t != "-."
    ensures t == "-"
  {
    var u := WithoutSign(t);
    assert u == t[|t| - |u|..];
    DigitlessSlice(t, |t| - |u|, |t|);
    AroundPoint(u);
    var before, after := BeforePoint(u), AfterPoint(u);
    DigitlessSlice(u, 0, |before|);
    assert before == u[..|before|];
    DigitlessSlice(u, |u| - |after|, |u|);
    assert after == u[|u| - |after|..];
    assert before == "" && after == "";
    assert u == "" || u == ".";
    assert t[0] == '-' ==> t == "-" + u;
  }

  /**
   A string without a digit should be rejected. It is, unless it is a minus sign, with white
   space or without, and the exponent is positive: then it is zero.
   */
  lemma DigitlessIff(s: string, d: nat)
    requires !HasDigit(s)
    ensures ParseUnits(s, d).Ok? <==> Trim(s) == "-" && d > 0
    ensures ParseUnits(s, d).Ok? ==> ParseUnits(s, d) == Ok(0)
  {
    var t := Trim(s);
    DigitlessTrimLeft(s);
    DigitlessTrimRight(TrimLeft(s));
    LoneMinus(d);
    TrimNothing("-");
    if t == "-" {
      assert ParseUnits(s, d) == ParseUnits("-", d);
    } else if WellFormed(t) && t != "" && t != "." && t != "-." {
      DigitlessFormat(t);
    }
  }

  /** A lone minus sign passes the format check: it is zero exactly when the exponent is positive. */
  lemma LoneMinus(d: nat)
    ensures ParseUnits("-", d) == if d > 0 then Ok(0) else Err(NotANumber)
  {
    TrimNothing("-");
    LoneMinusParts();
    LoneMinusValue(d);
  }

  lemma LoneMinusParts()
    ensures WithoutSign("-") == "" && WellFormed("-")
    ensures BeforePoint("-") == "-" && AfterPoint("-") == ""
  {
    assert "-"[1..] == "";
    assert BeforePoint("-") == ['-'] + BeforePoint("");
    assert BeforePoint("") == "" && AfterPoint("") == "";
  }

  lemma LoneMinusValue(d: nat)
    ensures BigIntOf("-" + PadEnd("", d)) == if d > 0 then Some(0) else None
  {
    assert "" + Zeros(d) == Zeros(d);
    if d > 0 {
      ZerosValue(d);
      SignedValue(true, "", Zeros(d));
      assert "-" + "" == "-";
    } else {
      assert "-" + PadEnd("", d) == "-";
      MinusIsNoDigit("-");
    }
  }
}
