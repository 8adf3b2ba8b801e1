/** Printing a float label in scientific form, from its plain decimal form. */
module PromqlFloat {
  import opened Decimal

  // ------------------------------------------------------------------ reading

  function Pow10(e: int): real
    decreases if e < 0 then -e else e
  {
    if e == 0 then 1.0 else if e > 0 then 10.0 * Pow10(e - 1) else Pow10(e + 1) / 10.0
  }

  /** First position of `c`, or the length. */
  function Find(s: string, c: char): (k: nat)
    ensures k <= |s| && (k < |s| ==> s[k] == c) && forall i :: 0 <= i < k ==> s[i] != c
  {
    if s == [] || s[0] == c then 0 else 1 + Find(s[1..], c)
  }

  function ReadExponent(s: string): int {
    if s != [] && s[0] == '-' then -(Value(s[1..]) as int)
    else if s != [] && s[0] == '+' then Value(s[1..]) else Value(s)
  }

  /** A decimal number: `n` times ten to the power `e`, with a sign. */
  datatype Number = Number(negative: bool, n: nat, e: int)

  function ValueOf(x: Number): real {
    var size := Scaled(x.n, x.e); if x.negative then -size else size
  }

  function Scaled(n: nat, e: int): real { n as real * Pow10(e) }

  /** The number that a text `[-]digits[.digits][e[sign]digits]` spells. */
  function Read(s: string): Number {
    if s != [] && s[0] == '-' then ReadUnsigned(s[1..]).(negative := true) else ReadUnsigned(s)
  }

  function ReadUnsigned(u: string): Number {
    var k := Find(u, 'e');
    ReadMantissa(u[..k], if k < |u| then ReadExponent(u[k + 1..]) else 0)
  }

  function ReadMantissa(m: string, exponent: int): Number {
    var p := Find(m, '.');
    var fraction := if p < |m| then m[p + 1..] else "";
    Number(false, Value(m[..p] + fraction), exponent - |fraction|)
  }

  // ----------------------------------------------------------------- printing

  function FormatExponent(e: int): string {
    var magnitude: nat := if e < 0 then -e else e;
    "e" + (if e >= 0 then "+" else "-") + (if magnitude < 10 then "0" else "") + Digits(magnitude)
  }

  function TrimZeros(s: string): (r: string)
    ensures r <= s && (r == [] || r[|r| - 1] != '0')
  {
    if s != [] && s[|s| - 1] == '0' then TrimZeros(s[..|s| - 1]) else s
  }

  /** `format_promql_scientific`. */
  function FormatScientific(negative: bool, digits: string, exponent: int): string {
    var trimmed := TrimZeros(digits);
    var ds := if trimmed == [] then "0" else trimmed;
    (if negative then "-" else "") + Mantissa(ds) + FormatExponent(exponent)
  }

  /** What the form looks like. */
  lemma ScientificForms()
    ensures FormatScientific(true, "1200", 7) == "-1.2e+07" && FormatScientific(false, "5", -12) == "5e-12"
  {
    hide TrimZeros, FormatExponent;
    TrimForms();
    ExponentForms();
    assert "12"[1..] == "2";
  }

  lemma TrimForms()
    ensures TrimZeros("1200") == "12" && TrimZeros("5") == "5"
  {
    assert "1200"[..3] == "120" && "120"[..2] == "12";
    assert TrimZeros("12") == "12";
    assert TrimZeros("120") == "12";
  }

  lemma ExponentForms()
    ensures FormatExponent(7) == "e+07" && FormatExponent(-12) == "e-12"
  {
    assert Digits(7) == "7" && Digits(1) == "1" && Digits(12) == Digits(1) + "2";
  }

  /** The first digit, and a point before further ones. */
  function Mantissa(ds: string): string {
    if |ds| > 1 then [ds[0]] + ['.'] + ds[1..] else ds
  }

  function LeadingZeros(s: string): (z: nat)
    ensures z <= |s| && (z < |s| ==> s[z] != '0') && forall i :: 0 <= i < z ==> s[i] == '0'
  {
    if s == [] || s[0] != '0' then 0 else 1 + LeadingZeros(s[1..])
  }

  /** `decimal_to_promql_scientific`. */
  function Scientific(raw: string): string {
    if raw != [] && raw[0] == '-' then ScientificOf(true, raw[1..]) else ScientificOf(false, raw)
  }

  function ScientificOf(negative: bool, unsigned: string): string {
    var p := Find(unsigned, '.');
    if p < |unsigned| then ScientificFraction(negative, unsigned[..p], unsigned[p + 1..])
    else FormatScientific(negative, unsigned, if |unsigned| == 0 then 0 else |unsigned| - 1)
  }

  function ScientificFraction(negative: bool, integer: string, fraction: string): string {
    if integer != "0" then FormatScientific(negative, integer + fraction, if |integer| == 0 then 0 else |integer| - 1)
    else
      var z := LeadingZeros(fraction);
      if z < |fraction| then FormatScientific(negative, fraction[z..], -(z + 1)) else FormatScientific(negative, "0", 0)
  }

  /** A non-zero plain decimal: no superfluous leading zero. */
  predicate Plain(integer: string, fraction: string) {
    && AllDigits(integer) && AllDigits(fraction) && integer != []
    && (integer == "0" || integer[0] != '0')
    && (integer == "0" ==> LeadingZeros(fraction) < |fraction|)
  }

  function PlainText(negative: bool, integer: string, fraction: string): string {
    (if negative then "-" else "") + Unsigned(integer, fraction)
  }

  // ------------------------------------------------------------------- proofs

  lemma {:induction false} PowAdd(a: int, b: nat)
    ensures Pow10(a + b) == Pow10(a) * Pow10(b)
    decreases b
  {
    if b > 0 {
      PowAdd(a, b - 1);
      PowStep(a + b - 1);
      TenTimes(Pow10(a), Pow10(b - 1));
    }
  }

  lemma PowStep(e: int)
    ensures Pow10(e + 1) == 10.0 * Pow10(e)
  {
  }

  lemma EndsInZero(s: string)
    requires s != [] && s[|s| - 1] == '0'
    ensures Value(s) as real == 10.0 * Value(s[..|s| - 1]) as real
  {
    assert DigitValue('0') == 0;
    assert Value(s) == 10 * Value(s[..|s| - 1]);
  }

  lemma {:induction false} NumShift(s: string, zeros: nat, t: string)
    requires t <= s && |s| == |t| + zeros && forall i :: |t| <= i < |s| ==> s[i] == '0'
    ensures Value(s) as real == Value(t) as real * Pow10(zeros)
    decreases zeros
  {
    hide Value;
    if zeros == 0 {
      assert s == t;
    } else {
      NumShift(s[..|s| - 1], zeros - 1, t);
      EndsInZero(s);
      TenTimes(Value(t) as real, Pow10(zeros - 1));
    }
  }

  lemma TenTimes(x: real, y: real)
    ensures 10.0 * (x * y) == x * (10.0 * y)
  {
  }

  lemma {:induction false} NumLeading(s: string, z: nat)
    requires z <= |s| && forall i :: 0 <= i < z ==> s[i] == '0'
    ensures Value(s) == Value(s[z..])
    decreases |s|
  {
    if |s| == z {
      assert s[z..] == [];
      if s != [] { NumLeading(s[..|s| - 1], z - 1); assert s[..|s| - 1][z - 1..] == []; }
    } else {
      NumLeading(s[..|s| - 1], z);
      assert s[z..][..|s[z..]| - 1] == s[..|s| - 1][z..];
    }
  }

  lemma {:induction false} TrimShift(s: string)
    ensures Value(s) as real == Value(TrimZeros(s)) as real * Pow10(|s| - |TrimZeros(s)|)
  {
    hide Value, Pow10, TrimZeros;
    TrimmedAreZeros(s);
    NumShift(s, |s| - |TrimZeros(s)|, TrimZeros(s));
  }

  lemma {:induction false} TrimmedAreZeros(s: string)
    ensures forall i :: |TrimZeros(s)| <= i < |s| ==> s[i] == '0'
  {
    if s != [] && s[|s| - 1] == '0' { TrimmedAreZeros(s[..|s| - 1]); }
  }

  lemma {:induction false} FindAfter(a: string, c: char, b: string)
    requires c !in a
    ensures Find(a + [c] + b, c) == |a|
  {
    if a != [] {
      FindAfter(a[1..], c, b);
      assert (a + [c] + b)[1..] == a[1..] + [c] + b;
    }
  }

  lemma {:induction false} FindNot(a: string, c: char)
    requires c !in a
    ensures Find(a, c) == |a|
  {
    if a != [] { FindNot(a[1..], c); }
  }

  lemma NoneOf(s: string, c: char)
    requires AllDigits(s) && !('0' <= c <= '9')
    ensures c !in s
  {
  }

  /** The printed exponent is read back and has at least two digits. */
  lemma ExponentReads(e: int)
    ensures FormatExponent(e) != [] && FormatExponent(e)[0] == 'e' && ReadExponent(FormatExponent(e)[1..]) == e
    ensures |FormatExponent(e)| >= 4 && (FormatExponent(e)[1] == '+' || FormatExponent(e)[1] == '-') && AllDigits(FormatExponent(e)[2..])
  {
    hide Value, Digits;
    var magnitude: nat := if e < 0 then -e else e;
    var sign := if e >= 0 then '+' else '-';
    var text := PaddedDigits(magnitude);
    PaddedReads(magnitude);
    assert FormatExponent(e) == ['e', sign] + text;
    assert (['e', sign] + text)[1..] == [sign] + text && (['e', sign] + text)[2..] == text && ([sign] + text)[1..] == text;
  }

  function PaddedDigits(n: nat): string { (if n < 10 then "0" else "") + Digits(n) }

  lemma PaddedReads(n: nat)
    ensures Value(PaddedDigits(n)) == n && AllDigits(PaddedDigits(n)) && |PaddedDigits(n)| >= 2
  {
    hide Value, Digits;
    var ds := Digits(n);
    ValueOfDigits(n);
    if n < 10 {
      NumLeading("0" + ds, 1);
      assert ("0" + ds)[1..] == ds;
    } else {
      TwoDigits(n);
      assert "" + ds == ds;
    }
  }

  lemma TwoDigits(n: nat)
    requires n >= 10
    ensures |Digits(n)| >= 2
  {
    assert |Digits(n / 10)| >= 1;
  }

  /** What the scientific form of a digit string denotes. */
  lemma ScientificReads(digits: string, exponent: int)
    requires AllDigits(digits) && digits != [] && digits[0] != '0'
    ensures var ds := TrimZeros(digits);
            ReadUnsigned(FormatScientific(false, digits, exponent)) == Number(false, Value(ds), exponent - (|ds| - 1))
    ensures FormatScientific(false, digits, exponent) != [] && FormatScientific(false, digits, exponent)[0] != '-'
  {
    hide FormatScientific, ReadUnsigned, Value, FormatExponent, TrimZeros, ReadMantissa, ReadExponent, Mantissa;
    var ds := TrimZeros(digits);
    TrimmedAreZeros(digits);
    assert ds != [] && ds[0] == digits[0];
    Assembled(digits, exponent);
    ExponentReads(exponent);
    MantissaReads(ds, exponent);
    UnsignedReads(Mantissa(ds), FormatExponent(exponent)[1..]);
  }

  lemma Assembled(digits: string, exponent: int)
    requires TrimZeros(digits) != []
    ensures FormatExponent(exponent) != []
    ensures FormatScientific(false, digits, exponent) ==
            Mantissa(TrimZeros(digits)) + ['e'] + FormatExponent(exponent)[1..]
  {
    hide FormatExponent, TrimZeros, Mantissa, ReadExponent, AllDigits;
    ExponentReads(exponent);
    var mantissa, tail := Mantissa(TrimZeros(digits)), FormatExponent(exponent);
    assert "" + mantissa == mantissa;
    assert tail == ['e'] + tail[1..];
    assert mantissa + (['e'] + tail[1..]) == mantissa + ['e'] + tail[1..];
  }

  lemma UnsignedReads(mantissa: string, exponent: string)
    requires 'e' !in mantissa
    ensures ReadUnsigned(mantissa + ['e'] + exponent) == ReadMantissa(mantissa, ReadExponent(exponent))
  {
    hide ReadMantissa, ReadExponent, Find;
    var u := mantissa + ['e'] + exponent;
    FindAfter(mantissa, 'e', exponent);
    assert u[..|mantissa|] == mantissa && u[|mantissa| + 1..] == exponent;
  }

  lemma TrimScaled(digits: string, e: int)
    ensures Scaled(Value(TrimZeros(digits)), e + |digits| - |TrimZeros(digits)|) == Scaled(Value(digits), e)
  {
    hide Value, Scaled, TrimZeros, Pow10;
    TrimShift(digits);
    Rescale(Value(digits), Value(TrimZeros(digits)), |digits| - |TrimZeros(digits)|, e);
  }

  lemma Rescale(whole: nat, kept: nat, zeros: nat, e: int)
    requires whole as real == kept as real * Pow10(zeros)
    ensures Scaled(kept, e + zeros) == Scaled(whole, e)
  {
    hide Pow10;
    PowAdd(e, zeros);
    Reorder(kept as real, Pow10(e), Pow10(zeros));
  }

  lemma Reorder(k: real, x: real, y: real)
    ensures k * (x * y) == (k * y) * x
  {
  }

  lemma MantissaReads(ds: string, exponent: int)
    requires AllDigits(ds) && ds != []
    ensures 'e' !in Mantissa(ds) && Mantissa(ds)[0] == ds[0]
    ensures ReadMantissa(Mantissa(ds), exponent) == Number(false, Value(ds), exponent - (|ds| - 1))
  {
    hide Value, Find, ReadMantissa;
    NoneOf(ds, 'e');
    NoneOf(ds, '.');
    if |ds| > 1 {
      PointRead(ds[..1], ds[1..], exponent);
      assert [ds[0]] == ds[..1] && ds[..1] + ds[1..] == ds;
    } else {
      PointlessRead(ds, exponent);
    }
  }

  lemma PointRead(integer: string, fraction: string, exponent: int)
    requires '.' !in integer
    ensures ReadMantissa(integer + ['.'] + fraction, exponent) == Number(false, Value(integer + fraction), exponent - |fraction|)
  {
    hide Value, Find;
    var m := integer + ['.'] + fraction;
    FindAfter(integer, '.', fraction);
    assert m[..|integer|] == integer && m[|integer| + 1..] == fraction;
  }

  lemma PointlessRead(integer: string, exponent: int)
    requires '.' !in integer
    ensures ReadMantissa(integer, exponent) == Number(false, Value(integer), exponent)
  {
    hide Value, Find;
    FindNot(integer, '.');
    assert integer[..|integer|] + "" == integer;
  }

  function Unsigned(integer: string, fraction: string): string {
    if fraction == [] then integer else integer + ['.'] + fraction
  }

  lemma PlainSplit(integer: string, fraction: string)
    requires AllDigits(integer) && AllDigits(fraction) && integer != []
    ensures var u := Unsigned(integer, fraction);
            && u != [] && u[0] != '-' && 'e' !in u && Find(u, '.') == |integer| && u[..|integer|] == integer
            && (fraction != [] ==> u[|integer| + 1..] == fraction)
  {
    hide Find;
    var u := Unsigned(integer, fraction);
    NoneOf(integer, 'e');
    NoneOf(fraction, 'e');
    NoneOf(integer, '.');
    assert u[0] == integer[0];
    if fraction == [] { FindNot(u, '.'); } else { FindAfter(integer, '.', fraction); }
  }

  /** What a plain decimal denotes. */
  lemma PlainReads(integer: string, fraction: string)
    requires AllDigits(integer) && AllDigits(fraction) && integer != []
    ensures ReadUnsigned(Unsigned(integer, fraction)) == Number(false, Value(integer + fraction), -|fraction|)
  {
    hide Value, Find, ReadMantissa;
    var u := Unsigned(integer, fraction);
    PlainSplit(integer, fraction);
    FindNot(u, 'e');
    assert u[..|u|] == u;
    NoneOf(integer, '.');
    if fraction == [] {
      PointlessRead(integer, 0);
      assert integer + fraction == integer;
    } else {
      PointRead(integer, fraction, 0);
    }
  }

  /** The digits and the exponent that the scientific form is made of. */
  function SciDigits(integer: string, fraction: string): string {
    if integer != "0" then integer + fraction else fraction[LeadingZeros(fraction)..]
  }

  function SciExponent(integer: string, fraction: string): int {
    if integer != "0" then |integer| - 1 else -(LeadingZeros(fraction) + 1)
  }

  lemma ScientificIs(negative: bool, integer: string, fraction: string)
    requires Plain(integer, fraction)
    ensures Scientific(PlainText(negative, integer, fraction)) ==
            FormatScientific(negative, SciDigits(integer, fraction), SciExponent(integer, fraction))
  {
    hide FormatScientific, Unsigned, ScientificOf;
    PlainSplit(integer, fraction);
    SignSplit(negative, Unsigned(integer, fraction));
    ScientificOfIs(negative, integer, fraction);
  }

  lemma ScientificOfIs(negative: bool, integer: string, fraction: string)
    requires Plain(integer, fraction)
    ensures ScientificOf(negative, Unsigned(integer, fraction)) ==
            FormatScientific(negative, SciDigits(integer, fraction), SciExponent(integer, fraction))
  {
    hide FormatScientific, Find, LeadingZeros, AllDigits;
    PlainSplit(integer, fraction);
    assert fraction == [] ==> integer + fraction == integer;
  }

  lemma SignSplit(negative: bool, u: string)
    requires u != [] && u[0] != '-'
    ensures var raw := (if negative then "-" else "") + u;
            && (negative <==> raw[0] == '-') && (if negative then raw[1..] else raw) == u
  {
  }

  lemma SignedReads(negative: bool, u: string)
    requires u != [] && u[0] != '-' && !ReadUnsigned(u).negative
    ensures Read((if negative then "-" else "") + u) == ReadUnsigned(u).(negative := negative)
  {
    hide ReadUnsigned;
    SignSplit(negative, u);
  }

  lemma SignApart(negative: bool, digits: string, exponent: int)
    ensures FormatScientific(negative, digits, exponent) ==
            (if negative then "-" else "") + FormatScientific(false, digits, exponent)
  {
    hide TrimZeros, Mantissa, FormatExponent;
  }

  lemma SignedScientificReads(negative: bool, digits: string, exponent: int)
    requires AllDigits(digits) && digits != [] && digits[0] != '0'
    ensures var ds := TrimZeros(digits);
            Read(FormatScientific(negative, digits, exponent)) == Number(negative, Value(ds), exponent - (|ds| - 1))
  {
    hide *;
    ScientificReads(digits, exponent);
    SignApart(negative, digits, exponent);
    SignedReads(negative, FormatScientific(false, digits, exponent));
  }

  lemma SignedPlainReads(negative: bool, integer: string, fraction: string)
    requires Plain(integer, fraction)
    ensures Read(PlainText(negative, integer, fraction)) == Number(negative, Value(integer + fraction), -|fraction|)
  {
    hide Read, ReadUnsigned, Value, Unsigned;
    PlainReads(integer, fraction);
    PlainSplit(integer, fraction);
    SignedReads(negative, Unsigned(integer, fraction));
  }

  /** For every plain decimal text of a non-zero number, the scientific text denotes
      exactly the same number. */
  lemma SameNumber(negative: bool, integer: string, fraction: string)
    requires Plain(integer, fraction)
    ensures ValueOf(Read(Scientific(PlainText(negative, integer, fraction)))) == ValueOf(Read(PlainText(negative, integer, fraction)))
  {
    hide *;
    var digits, exponent := SciDigits(integer, fraction), SciExponent(integer, fraction);
    SciParts(integer, fraction);
    ScientificIs(negative, integer, fraction);
    SignedScientificReads(negative, digits, exponent);
    SignedPlainReads(negative, integer, fraction);
    SameValue(negative, digits, -|fraction|);
  }

  lemma SameValue(negative: bool, digits: string, e: int)
    ensures var ds := TrimZeros(digits);
            ValueOf(Number(negative, Value(ds), e + |digits| - |ds|)) == ValueOf(Number(negative, Value(digits), e))
  {
    hide Value, Scaled, TrimZeros;
    TrimScaled(digits, e);
  }

  /** The digits are those of the number, and the exponent places them. */
  lemma SciParts(integer: string, fraction: string)
    requires Plain(integer, fraction)
    ensures var digits, exponent := SciDigits(integer, fraction), SciExponent(integer, fraction);
            && AllDigits(digits) && digits != [] && digits[0] != '0'
            && Value(digits) == Value(integer + fraction) && exponent - (|digits| - 1) == -|fraction|
  {
    hide Value;
    if integer == "0" {
      var z := LeadingZeros(fraction);
      NumLeading("0" + fraction, 1 + z);
      assert ("0" + fraction)[1 + z..] == fraction[z..];
    }
  }

  /** The shape of the scientific text: one non-zero digit, then digits that do not end
      in zero, then an exponent of at least two digits. */
  lemma Shape(negative: bool, integer: string, fraction: string)
    requires Plain(integer, fraction)
    ensures var ds, tail := TrimZeros(SciDigits(integer, fraction)), FormatExponent(SciExponent(integer, fraction));
            && ds != [] && AllDigits(ds) && ds[0] != '0' && (|ds| > 1 ==> ds[|ds| - 1] != '0')
            && Scientific(PlainText(negative, integer, fraction)) ==
                 (if negative then "-" else "") + Mantissa(ds) + tail
            && |tail| >= 4 && tail[0] == 'e' && (tail[1] == '+' || tail[1] == '-') && AllDigits(tail[2..])
  {
    hide Scientific, FormatExponent, SciDigits, SciExponent, TrimZeros, Value;
    SciParts(integer, fraction);
    ScientificIs(negative, integer, fraction);
    ExponentReads(SciExponent(integer, fraction));
    TrimmedAreZeros(SciDigits(integer, fraction));
  }
}
