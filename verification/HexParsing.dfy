/** The bytes that the SVM payloads read from strings, compared with the language's `parseInt`. */
module HexParsing {
  import opened Wrappers
  import opened Strings
  import opened SvmPayload

  /** `parseInt` in base 16: white space, a sign, `0x`, and as many digits as there are. */
  function ParseInt(s: string): Option<int> {
    var t := SkipSpace(s);
    var signed := t != "" && (t[0] == '-' || t[0] == '+');
    var u := if signed then t[1..] else t;
    var digits := HexPrefix16(if |u| >= 2 && u[0] == '0' && (u[1] == 'x' || u[1] == 'X') then u[2..] else u);
    if digits == "" then None
    else Some(if signed && t[0] == '-' then 0 - HexNumber(digits) else HexNumber(digits))
  }

  function SkipSpace(s: string): string {
    if s != "" && IsSpace(s[0]) then SkipSpace(s[1..]) else s
  }

  function HexPrefix16(s: string): (r: string)
    ensures forall i :: 0 <= i < |r| ==> IsHexChar(r[i])
  {
    if s != "" && IsHexChar(s[0]) then [s[0]] + HexPrefix16(s[1..]) else ""
  }

  function HexNumber(s: string): nat
    requires forall i :: 0 <= i < |s| ==> IsHexChar(s[i])
  {
    if s == "" then 0 else 16 * HexNumber(s[..|s| - 1]) + HexValue(s[|s| - 1])
  }

  /** The byte of a pair is what `parseInt` makes of it, modulo 256, with zero for `NaN`. */
  lemma PairIsParseInt(hi: char, lo: char)
    ensures ParsePair(hi, lo) as int == match ParseInt([hi, lo]) case None => 0 case Some(n) => n % 256
  {
    if IsHexChar(hi) {
      DigitFirst(hi, lo);
    } else {
      OtherFirst(hi, lo);
    }
  }

  lemma OtherFirst(hi: char, lo: char)
    requires !IsHexChar(hi)
    ensures ParsePair(hi, lo) as int == match ParseInt([hi, lo]) case None => 0 case Some(n) => n % 256
  {
    if IsSpace(hi) {
      SpaceFirst(hi, lo);
    } else {
      SignFirst(hi, lo);
    }
  }

  lemma SpaceFirst(hi: char, lo: char)
    requires IsSpace(hi)
    ensures ParsePair(hi, lo) as int == match ParseInt([hi, lo]) case None => 0 case Some(n) => n % 256
  {
    OneDigit(lo);
    assert [hi, lo][1..] == [lo];
    assert SkipSpace([hi, lo]) == SkipSpace([lo]);
  }

  /** A sign, or a character that starts no number. */
  lemma SignFirst(hi: char, lo: char)
    requires !IsHexChar(hi) && !IsSpace(hi)
    ensures ParsePair(hi, lo) as int == match ParseInt([hi, lo]) case None => 0 case Some(n) => n % 256
  {
    OneDigit(lo);
    assert [hi, lo][1..] == [lo];
    assert SkipSpace([hi, lo]) == [hi, lo];
    assert HexPrefix16([hi, lo]) == "";
  }

  lemma OneDigit(c: char)
    ensures SkipSpace([c]) == if IsSpace(c) then "" else [c]
    ensures HexPrefix16([c]) == if IsHexChar(c) then [c] else ""
    ensures IsHexChar(c) ==> HexNumber([c]) == HexValue(c)
    ensures [c][1..] == "" && HexPrefix16("") == ""
  {
    assert [c][1..] == "" && [c][..0] == "";
    assert IsHexChar(c) ==> [c] + "" == [c];
  }

  lemma DigitFirst(hi: char, lo: char)
    requires IsHexChar(hi)
    ensures ParsePair(hi, lo) as int == match ParseInt([hi, lo]) case None => 0 case Some(n) => n % 256
  {
    var s := [hi, lo];
    OneDigit(hi);
    OneDigit(lo);
    assert s[1..] == [lo] && s[2..] == "" && SkipSpace(s) == s;
    TwoDigits(hi, lo);
  }

  lemma TwoDigits(hi: char, lo: char)
    requires IsHexChar(hi)
    ensures HexPrefix16([hi, lo]) == if IsHexChar(lo) then [hi, lo] else [hi]
    ensures IsHexChar(lo) ==> HexNumber([hi, lo]) == 16 * HexValue(hi) + HexValue(lo)
  {
    var s := [hi, lo];
    OneDigit(hi);
    OneDigit(lo);
    assert s[1..] == [lo] && s[..1] == [hi];
    assert [hi] + [lo] == s && [hi] + "" == [hi];
  }
}
