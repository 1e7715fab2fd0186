// Parsing decimal text into a scaled 128-bit integer, with every step checked.
module DecimalText {
  import opened Wrappers
  import opened Text
  import B = BsonModel

  const I128_MAX: int := 0x7fff_ffff_ffff_ffff_ffff_ffff_ffff_ffff
  const I128_MIN: int := -0x8000_0000_0000_0000_0000_0000_0000_0000

  type i8 = x: int | -128 <= x < 128

  function Checked(v: int): Option<int> {
    if I128_MIN <= v <= I128_MAX then Some(v) else None
  }

  // Addition of 32-bit integers, wrapping as a release build does.
  function WrapI32(v: int): int {
    var m := v % 0x1_0000_0000;
    if m > B.I32_MAX then m - 0x1_0000_0000 else m
  }

  // Ten to the k, where k is not negative and the power fits 128 bits.
  function CheckedPow10(k: int): Option<int> {
    if k < 0 then None else Checked(Pow10(k))
  }

  function ScaleInt(v: int, scale: int): Option<int> {
    var factor :- CheckedPow10(if scale < 0 then 0 else scale);
    Checked(v * factor)
  }

  // Rust's `i32::from_str`: an optional sign, then at least one digit.
  function ParseI32(s: string): Option<int> {
    if s == "" then None
    else
      var signed := s[0] == '-' || s[0] == '+';
      var digits := if signed then s[1..] else s;
      if digits == "" || !AllDigits(digits) then None
      else
        var v: int := if s[0] == '-' then 0 - DigitsValue(digits) else DigitsValue(digits);
        if -B.I32_MAX - 1 <= v <= B.I32_MAX then Some(v) else None
  }

  // The position of the first character in the set, or the length.
  function FirstOf(s: string, set_: set<char>): (i: nat)
    ensures i <= |s| && (i < |s| ==> s[i] in set_)
    ensures forall j :: 0 <= j < i ==> s[j] !in set_
  {
    if s == "" || s[0] in set_ then 0 else 1 + FirstOf(s[1..], set_)
  }

  // The digits read so far, or None once a step leaves 128 bits.
  function Accumulate(digits: string): Option<int>
    requires AllDigits(digits)
  {
    if digits == "" then Some(0)
    else
      var before :- Accumulate(digits[..|digits| - 1]);
      var shifted :- Checked(before * 10);
      Checked(shifted + DigitValue(digits[|digits| - 1]))
  }

  method AccumulateDigits(digits: string) returns (r: Option<int>)
    requires AllDigits(digits)
    ensures r == if DigitsValue(digits) <= I128_MAX then Some(DigitsValue(digits)) else None
  {
    var value := 0;
    for i := 0 to |digits|
      invariant value == DigitsValue(digits[..i]) <= I128_MAX
    {
      assert digits[..i + 1][..i] == digits[..i];
      PrefixIsSmaller(digits, i + 1);
      var next := value * 10;
      if next > I128_MAX {
        return None;
      }
      next := next + DigitValue(digits[i]);
      if next > I128_MAX {
        return None;
      }
      value := next;
    }
    assert digits[..|digits|] == digits;
    r := Some(value);
  }

  lemma {:induction false} PrefixIsSmaller(digits: string, i: nat)
    requires AllDigits(digits) && i <= |digits|
    ensures DigitsValue(digits[..i]) <= DigitsValue(digits)
    decreases |digits|
  {
    if i < |digits| {
      PrefixIsSmaller(digits[..|digits| - 1], i);
      assert digits[..|digits| - 1][..i] == digits[..i];
    } else {
      assert digits[..i] == digits;
    }
  }

  lemma {:induction false} AccumulateIsValue(digits: string)
    requires AllDigits(digits)
    ensures Accumulate(digits) == if DigitsValue(digits) <= I128_MAX then Some(DigitsValue(digits)) else None
  {
    if digits != "" {
      AccumulateIsValue(digits[..|digits| - 1]);
    }
  }

  function ApplyShift(value: nat, shift: int): Option<int> {
    if shift >= 0 then
      var factor :- CheckedPow10(shift);
      Checked(value * factor)
    else
      var factor :- CheckedPow10(WrapI32(-shift));
      if factor == 0 then None else Some(value / factor)
  }

  // What the text says: sign, digits before and after the point, exponent.
  datatype Reading = Reading(negative: bool, intPart: string, fracPart: string, exponent: int)

  function ReadDigits(negative: bool, digits: string, exponent: int): Option<Reading> {
    if LowerAscii(digits) == "infinity" || LowerAscii(digits) == "inf" then None
    else
      var dot := FirstOf(digits, {'.'});
      var intPart := digits[..dot];
      var fracPart := if dot < |digits| then digits[dot + 1..] else "";
      if !AllDigits(intPart) || !AllDigits(fracPart) then None
      else Some(Reading(negative, intPart, fracPart, exponent))
  }

  function ReadMantissa(mantissa: string, exponent: int): Option<Reading> {
    if mantissa != "" && mantissa[0] == '-' then ReadDigits(true, mantissa[1..], exponent)
    else if mantissa != "" && mantissa[0] == '+' then ReadDigits(false, mantissa[1..], exponent)
    else ReadDigits(false, mantissa, exponent)
  }

  function Read(t: string): Option<Reading> {
    if t == "" || LowerAscii(t) == "nan" then None
    else
      var pos := FirstOf(t, {'e', 'E'});
      if pos == |t| then ReadMantissa(t, 0)
      else
        var exponent :- ParseI32(t[pos + 1..]);
        ReadMantissa(t[..pos], exponent)
  }

  // Digits consumed stand at 10^-|frac|; the exponent and the scale move them on.
  function ShiftOf(r: Reading, scale: int): int {
    WrapI32(WrapI32(scale + r.exponent) - |r.fracPart|)
  }

  function Signed(negative: bool, moved: Option<int>): Option<int> {
    match moved
    case None => None
    case Some(m) => Some(if negative then -m else m)
  }

  function Rescale(r: Reading, scale: int): Option<int>
    requires AllDigits(r.intPart) && AllDigits(r.fracPart)
  {
    var value :- Accumulate(r.intPart + r.fracPart);
    assert value >= 0 by { AccumulateIsValue(r.intPart + r.fracPart); }
    Signed(r.negative, ApplyShift(value, ShiftOf(r, scale)))
  }

  function ParseDecimal(text: string, scale: int): Option<int> {
    var r :- Read(Trim(text));
    Rescale(r, scale)
  }

  // The same, with the source's loop over the digits.
  method Parse(text: string, scale: int) returns (r: Option<int>)
    ensures r == ParseDecimal(text, scale)
  {
    var reading := Read(Trim(text));
    if reading.None? {
      return None;
    }
    var value := AccumulateDigits(reading.value.intPart + reading.value.fracPart);
    AccumulateIsValue(reading.value.intPart + reading.value.fracPart);
    r := if value.None? then None
         else Signed(reading.value.negative, ApplyShift(value.value, ShiftOf(reading.value, scale)));
  }

  // ---- which powers fit ----

  lemma Pow10Bounds()
    ensures Pow10(38) <= I128_MAX < Pow10(39)
  {
    assert Pow10(8) == 100_000_000;
    assert Pow10(16) == Pow10(8) * 100_000_000;
    assert Pow10(24) == Pow10(16) * 100_000_000;
    assert Pow10(32) == Pow10(24) * 100_000_000;
    assert Pow10(38) == Pow10(32) * 1_000_000;
  }

  lemma CheckedPow10Fits(k: int)
    ensures CheckedPow10(k) == if 0 <= k <= 38 then Some(Pow10(k)) else None
  {
    Pow10Bounds();
    if 0 <= k < 38 {
      Pow10Monotone(k, 38);
    } else if k > 39 {
      Pow10Monotone(39, k);
    }
  }

  // ---- numerals ----

  // Longer fractions are out of the reach of any document.
  const MAX_FRACTION: nat := 0x4000_0000

  datatype Sign = Unsigned | Plus | Minus

  // sign I [. F] [e exponent], as it may be written between white space.
  datatype Numeral = Numeral(sign: Sign, intPart: string, point: bool, fracPart: string,
                             exponent: Option<(char, string)>)

  function SignText(s: Sign): string {
    match s
    case Unsigned => ""
    case Plus => "+"
    case Minus => "-"
  }

  function MantissaText(n: Numeral): string {
    SignText(n.sign) + n.intPart + (if n.point then "." + n.fracPart else "")
  }

  function NumeralText(n: Numeral): string {
    MantissaText(n) + match n.exponent case None => "" case Some(e) => [e.0] + e.1
  }

  predicate IsNumeral(n: Numeral) {
    && AllDigits(n.intPart) && AllDigits(n.fracPart)
    && (!n.point ==> n.fracPart == "")
    && (n.exponent.Some? ==> n.exponent.value.0 in {'e', 'E'} && ParseI32(n.exponent.value.1).Some?)
  }

  function ExponentOf(n: Numeral): int
    requires IsNumeral(n)
  {
    match n.exponent case None => 0 case Some(e) => ParseI32(e.1).value
  }

  // sign * trunc(IF * 10^shift) toward zero, where that fits.
  function Scaled(n: Numeral, shift: int): Option<int>
    requires IsNumeral(n)
  {
    var v := DigitsValue(n.intPart + n.fracPart);
    if v > I128_MAX || shift > 38 || shift < -38 then None
    else
      var moved := if shift >= 0 then v * Pow10(shift) else v / Pow10(-shift);
      if moved > I128_MAX then None else Some(if n.sign.Minus? then -moved else moved)
  }

  lemma ApplyShiftScales(v: nat, shift: int)
    requires v <= I128_MAX && -B.I32_MAX - 1 <= shift <= B.I32_MAX
    ensures ApplyShift(v, shift) ==
      if shift > 38 || shift < -38 then None
      else if shift >= 0 then (if v * Pow10(shift) <= I128_MAX then Some(v * Pow10(shift)) else None)
      else Some(v / Pow10(-shift))
  {
    if shift >= 0 {
      CheckedPow10Fits(shift);
      assert v * Pow10(shift) >= 0;
    } else {
      CheckedPow10Fits(WrapI32(-shift));
    }
  }

  lemma {:induction false} FirstOfUnique(s: string, cs: set<char>, i: nat)
    requires i <= |s| && (i < |s| ==> s[i] in cs) && forall j :: 0 <= j < i ==> s[j] !in cs
    ensures FirstOf(s, cs) == i
  {
  }

  function UnsignedText(n: Numeral): string {
    n.intPart + (if n.point then "." + n.fracPart else "")
  }

  lemma MantissaChars(n: Numeral)
    requires IsNumeral(n)
    ensures forall i :: 0 <= i < |UnsignedText(n)| ==> IsDigit(UnsignedText(n)[i]) || UnsignedText(n)[i] == '.'
    ensures MantissaText(n) == SignText(n.sign) + UnsignedText(n)
    ensures 'e' !in MantissaText(n) && 'E' !in MantissaText(n)
  {
  }

  // No numeral spells one of the special values.
  lemma NotSpecial(n: Numeral)
    requires IsNumeral(n)
    ensures LowerAscii(NumeralText(n)) != "nan"
    ensures LowerAscii(UnsignedText(n)) != "infinity" && LowerAscii(UnsignedText(n)) != "inf"
  {
    var t, d := NumeralText(n), UnsignedText(n);
    MantissaChars(n);
    if t != "" {
      assert t[0] != 'n' && t[0] != 'N';
      assert LowerAscii(t)[0] != "nan"[0];
    }
    if d != "" {
      assert LowerAscii(d)[0] == d[0] != "inf"[0];
      assert "infinity"[0] == 'i';
    }
  }

  // Text splits at its first character of the set.
  lemma CutAt(a: string, c: char, b: string, cs: set<char>)
    requires c in cs && forall x :: x in a ==> x !in cs
    ensures var s := a + [c] + b; |a| < |s| && FirstOf(s, cs) == |a| && s[..|a|] == a && s[|a| + 1..] == b
  {
    var s := a + [c] + b;
    forall j | 0 <= j < |a| ensures s[j] !in cs {
      assert s[j] == a[j] && a[j] in a;
    }
    FirstOfUnique(s, cs, |a|);
  }

  lemma CutNowhere(a: string, cs: set<char>)
    requires forall x :: x in a ==> x !in cs
    ensures FirstOf(a, cs) == |a| && a[..|a|] == a
  {
    forall j | 0 <= j < |a| ensures a[j] !in cs {
      assert a[j] in a;
    }
    FirstOfUnique(a, cs, |a|);
  }

  lemma ExponentPart(n: Numeral)
    requires IsNumeral(n)
    ensures var t := NumeralText(n);
      && FirstOf(t, {'e', 'E'}) == |MantissaText(n)|
      && t[..|MantissaText(n)|] == MantissaText(n)
      && (n.exponent.Some? ==> |MantissaText(n)| < |t| && t[|MantissaText(n)| + 1..] == n.exponent.value.1)
      && (n.exponent.None? ==> |MantissaText(n)| == |t|)
  {
    MantissaChars(n);
    var m := MantissaText(n);
    if n.exponent.Some? {
      CutAt(m, n.exponent.value.0, n.exponent.value.1, {'e', 'E'});
      assert NumeralText(n) == m + [n.exponent.value.0] + n.exponent.value.1;
    } else {
      CutNowhere(m, {'e', 'E'});
      assert NumeralText(n) == m;
    }
  }

  lemma PointPart(n: Numeral)
    requires IsNumeral(n)
    ensures var d := UnsignedText(n);
      && FirstOf(d, {'.'}) == |n.intPart|
      && d[..|n.intPart|] == n.intPart
      && (n.point ==> |n.intPart| < |d| && d[|n.intPart| + 1..] == n.fracPart)
      && (!n.point ==> |n.intPart| == |d|)
  {
    assert forall x :: x in n.intPart ==> IsDigit(x);
    if n.point {
      CutAt(n.intPart, '.', n.fracPart, {'.'});
      assert UnsignedText(n) == n.intPart + ['.'] + n.fracPart;
    } else {
      CutNowhere(n.intPart, {'.'});
      assert UnsignedText(n) == n.intPart;
    }
  }

  lemma SignPart(n: Numeral)
    requires IsNumeral(n)
    ensures var m := MantissaText(n);
      && (m != "" && m[0] == '-' <==> n.sign.Minus?)
      && (m != "" && (m[0] == '-' || m[0] == '+') <==> !n.sign.Unsigned?)
      && (if n.sign.Unsigned? then m else m[1..]) == UnsignedText(n)
  {
    MantissaChars(n);
    assert UnsignedText(n) != "" ==> UnsignedText(n)[0] != '-' && UnsignedText(n)[0] != '+';
  }

  lemma MantissaReads(n: Numeral)
    requires IsNumeral(n)
    ensures ReadMantissa(MantissaText(n), ExponentOf(n))
         == Some(Reading(n.sign.Minus?, n.intPart, n.fracPart, ExponentOf(n)))
  {
    NotSpecial(n);
    PointPart(n);
    SignPart(n);
  }

  lemma PlainReads(n: Numeral)
    requires IsNumeral(n) && n.exponent.None? && NumeralText(n) != ""
    ensures Read(NumeralText(n)) == ReadMantissa(MantissaText(n), 0)
  {
    NotSpecial(n);
    ExponentPart(n);
    assert MantissaText(n) == NumeralText(n);
  }

  lemma ExponentReads(n: Numeral)
    requires IsNumeral(n) && n.exponent.Some?
    ensures Read(NumeralText(n)) == ReadMantissa(MantissaText(n), ExponentOf(n))
  {
    NotSpecial(n);
    ExponentPart(n);
  }

  lemma NumeralReads(n: Numeral)
    requires IsNumeral(n) && NumeralText(n) != ""
    ensures Read(NumeralText(n)) == Some(Reading(n.sign.Minus?, n.intPart, n.fracPart, ExponentOf(n)))
  {
    MantissaReads(n);
    if n.exponent.None? {
      PlainReads(n);
    } else {
      ExponentReads(n);
    }
  }

  // Wrapping never turns a shift that is out of reach into one that is not.
  lemma ShiftWraps(a: int, frac: nat)
    requires -B.I32_MAX - 129 <= a <= B.I32_MAX + 128 && frac <= MAX_FRACTION
    ensures var w := WrapI32(WrapI32(a) - frac);
      && -B.I32_MAX - 1 <= w <= B.I32_MAX
      && (w == a - frac || ((w > 38 || w < -38) && (a - frac > 38 || a - frac < -38)))
  {
  }

  lemma RescaleShifts(r: Reading, scale: int)
    requires AllDigits(r.intPart) && AllDigits(r.fracPart)
    ensures Rescale(r, scale) ==
      var v := DigitsValue(r.intPart + r.fracPart);
      if v > I128_MAX then None else Signed(r.negative, ApplyShift(v, ShiftOf(r, scale)))
  {
    AccumulateIsValue(r.intPart + r.fracPart);
  }

  lemma ShiftScales(n: Numeral, shift: int)
    requires IsNumeral(n) && -B.I32_MAX - 1 <= shift <= B.I32_MAX
    ensures Scaled(n, shift) ==
      var v := DigitsValue(n.intPart + n.fracPart);
      if v > I128_MAX then None else Signed(n.sign.Minus?, ApplyShift(v, shift))
  {
    var v := DigitsValue(n.intPart + n.fracPart);
    if v <= I128_MAX {
      ApplyShiftScales(v, shift);
      if -38 <= shift < 0 {
        QuotientFits(v, Pow10(-shift));
      }
    }
  }

  lemma QuotientFits(v: nat, p: nat)
    requires v <= I128_MAX && p >= 1
    ensures v / p <= I128_MAX
  {
  }

  lemma ExponentRange(n: Numeral)
    requires IsNumeral(n)
    ensures -B.I32_MAX - 1 <= ExponentOf(n) <= B.I32_MAX
  {
  }

  lemma FarShiftsAgree(n: Numeral, shift: int, wrapped: int)
    requires IsNumeral(n) && (shift > 38 || shift < -38) && (wrapped > 38 || wrapped < -38)
    ensures Scaled(n, shift) == Scaled(n, wrapped) == None
  {
  }

  lemma ReadingRescales(n: Numeral, scale: i8)
    requires IsNumeral(n) && |n.fracPart| <= MAX_FRACTION
    ensures Rescale(Reading(n.sign.Minus?, n.intPart, n.fracPart, ExponentOf(n)), scale)
         == Scaled(n, scale + ExponentOf(n) - |n.fracPart|)
  {
    var r := Reading(n.sign.Minus?, n.intPart, n.fracPart, ExponentOf(n));
    var shift, wrapped := scale + ExponentOf(n) - |n.fracPart|, ShiftOf(r, scale);
    ExponentRange(n);
    ShiftWraps(scale + ExponentOf(n), |n.fracPart|);
    RescaleShifts(r, scale);
    ShiftScales(n, wrapped);
    if wrapped != shift {
      FarShiftsAgree(n, shift, wrapped);
    }
  }

  // A numeral, wherever white space surrounds it, parses to its exact value
  // scaled and truncated toward zero; it is None only if a number leaves 128
  // bits or the shift leaves 38 places.
  lemma NumeralParses(n: Numeral, before: string, after: string, scale: i8)
    requires IsNumeral(n) && NumeralText(n) != "" && |n.fracPart| <= MAX_FRACTION
    requires Blank(before) && Blank(after)
    ensures ParseDecimal(before + NumeralText(n) + after, scale)
         == Scaled(n, scale + ExponentOf(n) - |n.fracPart|)
  {
    NumeralTrims(n, before, after);
    NumeralReads(n);
    ReadingRescales(n, scale);
  }

  // Computing the shift in 32 bits is wrapping the exact one.
  lemma WrapOnce(a: int, frac: nat)
    ensures WrapI32(WrapI32(a) - frac) == WrapI32(a - frac)
  {
    var k := if a % 0x1_0000_0000 > B.I32_MAX then a / 0x1_0000_0000 + 1 else a / 0x1_0000_0000;
    assert WrapI32(a) == a - k * 0x1_0000_0000;
    ShiftByTurns(a - frac, k);
  }

  lemma ShiftByTurns(v: int, k: int)
    ensures (v - k * 0x1_0000_0000) % 0x1_0000_0000 == v % 0x1_0000_0000
  {
  }

  // Without any bound on the fraction, the text parses to its value at the
  // wrapped shift; that is the exact result if and only if the shift fits 32
  // bits or the wrapped one gives nothing either.
  lemma NumeralParsesIff(n: Numeral, before: string, after: string, scale: i8)
    requires IsNumeral(n) && NumeralText(n) != ""
    requires Blank(before) && Blank(after)
    ensures var shift := scale + ExponentOf(n) - |n.fracPart|;
      && ParseDecimal(before + NumeralText(n) + after, scale) == Scaled(n, WrapI32(shift))
      && (ParseDecimal(before + NumeralText(n) + after, scale) == Scaled(n, shift) <==>
          -B.I32_MAX - 1 <= shift <= B.I32_MAX || Scaled(n, WrapI32(shift)).None?)
  {
    NumeralTrims(n, before, after);
    NumeralReads(n);
    RescalesWrapped(n, scale);
    WrappedAgreesIff(n, scale + ExponentOf(n) - |n.fracPart|);
  }

  lemma RescalesWrapped(n: Numeral, scale: i8)
    requires IsNumeral(n)
    ensures Rescale(Reading(n.sign.Minus?, n.intPart, n.fracPart, ExponentOf(n)), scale)
         == Scaled(n, WrapI32(scale + ExponentOf(n) - |n.fracPart|))
  {
    var r := Reading(n.sign.Minus?, n.intPart, n.fracPart, ExponentOf(n));
    RescaleShifts(r, scale);
    WrapOnce(scale + ExponentOf(n), |n.fracPart|);
    ShiftScales(n, ShiftOf(r, scale));
  }

  lemma WrappedFits(v: int)
    ensures -B.I32_MAX - 1 <= WrapI32(v) <= B.I32_MAX
    ensures WrapI32(v) == v <==> -B.I32_MAX - 1 <= v <= B.I32_MAX
  {
  }

  lemma FarIsNothing(n: Numeral, shift: int)
    requires IsNumeral(n) && (shift > 38 || shift < -38)
    ensures Scaled(n, shift) == None
  {
  }

  lemma WrappedAgreesIff(n: Numeral, shift: int)
    requires IsNumeral(n)
    ensures Scaled(n, WrapI32(shift)) == Scaled(n, shift) <==>
      -B.I32_MAX - 1 <= shift <= B.I32_MAX || Scaled(n, WrapI32(shift)).None?
  {
    WrappedFits(shift);
    if WrapI32(shift) != shift {
      FarIsNothing(n, shift);
    }
  }

  lemma {:induction false} TrimStartBlank(before: string, s: string)
    requires Blank(before) && (s == "" || !IsWhitespace(s[0]))
    ensures TrimStart(before + s) == s
  {
    if before == "" {
      assert before + s == s;
    } else {
      assert (before + s)[1..] == before[1..] + s;
      TrimStartBlank(before[1..], s);
    }
  }

  lemma {:induction false} TrimEndBlank(s: string, after: string)
    requires Blank(after) && (s == "" || !IsWhitespace(s[|s| - 1]))
    ensures TrimEnd(s + after) == s
  {
    if after == "" {
      assert s + after == s;
    } else {
      var n := |after| - 1;
      assert (s + after)[..|s + after| - 1] == s + after[..n];
      TrimEndBlank(s, after[..n]);
    }
  }

  lemma NoBlanks(n: Numeral)
    requires IsNumeral(n)
    ensures forall c :: c in NumeralText(n) ==> !IsWhitespace(c)
  {
    MantissaChars(n);
    if n.exponent.Some? {
      var e := n.exponent.value.1;
      assert forall c :: c in e ==> IsDigit(c) || c == '+' || c == '-' by {
        assert e == [e[0]] + e[1..];
      }
    }
  }

  lemma NumeralTrims(n: Numeral, before: string, after: string)
    requires IsNumeral(n) && NumeralText(n) != ""
    requires Blank(before) && Blank(after)
    ensures Trim(before + NumeralText(n) + after) == NumeralText(n)
  {
    var t := NumeralText(n);
    NoBlanks(n);
    assert t[0] in t && t[|t| - 1] in t;
    assert before + t + after == before + (t + after);
    TrimStartBlank(before, t + after);
    TrimEndBlank(t, after);
  }

  // Only numerals are accepted ...
  lemma AcceptedIsNumeral(text: string, scale: i8) returns (n: Numeral)
    requires ParseDecimal(text, scale).Some?
    ensures IsNumeral(n) && NumeralText(n) == Trim(text)
  {
    n := ReadIsNumeral(Trim(text));
  }

  lemma SplitAround(t: string, pos: nat)
    requires pos < |t|
    ensures t == t[..pos] + ([t[pos]] + t[pos + 1..])
  {
  }

  lemma ReadIsNumeral(t: string) returns (n: Numeral)
    requires Read(t).Some?
    ensures IsNumeral(n) && NumeralText(n) == t
  {
    var pos := FirstOf(t, {'e', 'E'});
    if pos == |t| {
      n := AcceptedMantissa(t, 0);
      assert NumeralText(n) == t;
    } else {
      n := AcceptedMantissa(t[..pos], ParseI32(t[pos + 1..]).value);
      n := n.(exponent := Some((t[pos], t[pos + 1..])));
      SplitAround(t, pos);
    }
  }

  lemma AcceptedMantissa(m: string, exponent: int) returns (n: Numeral)
    requires ReadMantissa(m, exponent).Some?
    ensures IsNumeral(n) && MantissaText(n) == m && n.exponent == None
  {
    if m != "" && m[0] == '-' {
      n := AcceptedDigits(Minus, m[1..], exponent);
      assert m == "-" + m[1..];
    } else if m != "" && m[0] == '+' {
      n := AcceptedDigits(Plus, m[1..], exponent);
      assert m == "+" + m[1..];
    } else {
      n := AcceptedDigits(Unsigned, m, exponent);
      assert m == "" + m;
    }
  }

  lemma AcceptedDigits(sign: Sign, digits: string, exponent: int) returns (n: Numeral)
    requires ReadDigits(sign.Minus?, digits, exponent).Some?
    ensures IsNumeral(n) && n.exponent == None
    ensures MantissaText(n) == SignText(sign) + digits
  {
    var dot := FirstOf(digits, {'.'});
    if dot == |digits| {
      n := Numeral(sign, digits, false, "", None);
      assert digits[..dot] == digits;
      WithoutPoint(n);
    } else {
      n := Numeral(sign, digits[..dot], true, digits[dot + 1..], None);
      SplitAround(digits, dot);
      WithPoint(n);
    }
  }

  lemma WithoutPoint(n: Numeral)
    requires !n.point
    ensures MantissaText(n) == SignText(n.sign) + n.intPart
  {
  }

  lemma WithPoint(n: Numeral)
    requires n.point
    ensures MantissaText(n) == SignText(n.sign) + (n.intPart + (['.'] + n.fracPart))
  {
  }

  // ... although the digits may be missing: such a numeral reads as zero, unless
  // its exponent shifts it out of reach.
  lemma NoDigitsIsZero(n: Numeral, before: string, after: string, scale: i8)
    requires IsNumeral(n) && NumeralText(n) != "" && n.intPart == "" && n.fracPart == ""
    requires Blank(before) && Blank(after)
    ensures ParseDecimal(before + NumeralText(n) + after, scale)
         == if -38 <= scale + ExponentOf(n) <= 38 then Some(0) else None
  {
    NumeralParses(n, before, after, scale);
    assert n.intPart + n.fracPart == "";
  }

  lemma SignAloneIsZero(scale: i8)
    requires 0 <= scale <= 38
    ensures ParseDecimal("-", scale) == Some(0) && ParseDecimal(".", scale) == Some(0)
  {
    var minus := Numeral(Minus, "", false, "", None);
    var point := Numeral(Unsigned, "", true, "", None);
    assert "" + NumeralText(minus) + "" == "-";
    assert "" + NumeralText(point) + "" == ".";
    NumeralParses(minus, "", "", scale);
    NumeralParses(point, "", "", scale);
  }

  // Integers take a short cut; it agrees with parsing their text.
  lemma IntegerShortcutAgrees(v: B.i64, scale: i8)
    requires scale >= 0
    ensures ParseDecimal(IntText(v), scale) == ScaleInt(v, scale)
  {
    var abs: int := if v < 0 then 0 - v else v;
    var n := Numeral(if v < 0 then Minus else Unsigned, NatText(abs), false, "", None);
    assert "" + NumeralText(n) + "" == IntText(v);
    NumeralParses(n, "", "", scale);
    assert n.intPart + n.fracPart == NatText(abs);
    NatTextValue(abs);
    CheckedPow10Fits(scale);
    if scale <= 38 {
      SymmetricRange(v, scale);
    }
  }

  // No product of a 64-bit integer and a power of ten is the most negative i128.
  lemma SymmetricRange(v: int, scale: nat)
    requires -0x8000_0000_0000_0000 <= v < 0x8000_0000_0000_0000
    ensures v < 0 ==> (v * Pow10(scale) >= I128_MIN <==> (0 - v) * Pow10(scale) <= I128_MAX)
    ensures (0 - v) * Pow10(scale) == 0 - v * Pow10(scale)
    ensures v < 0 ==> v * Pow10(scale) <= 0
    ensures v >= 0 ==> v * Pow10(scale) >= 0
  {
    if v < 0 && scale > 0 {
      var w := (0 - v) * Pow10(scale - 1);
      assert (0 - v) * Pow10(scale) == 10 * w;
      assert I128_MAX % 10 == 7;
    }
  }
}
