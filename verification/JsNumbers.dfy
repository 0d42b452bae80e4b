/**
 Numbers as ECMAScript writes them, and the decimal strings a recipe accepts for a number
 (bridge/src/recipe.rs). A finite double is given by its sign, its shortest digits and the place of its
 decimal point; how those digits are found is not modelled. Values are reals.
 */
module JsNumbers {
  import opened Outcomes
  import opened Decimals
  import JsonText

  function Pow10(e: int): real
    decreases if e < 0 then -e else e
  {
    if e == 0 then 1.0 else if e > 0 then 10.0 * Pow10(e - 1) else Pow10(e + 1) / 10.0
  }

  /** The value of a number written with these digits, `frac` of them behind the point, and this exponent. */
  function Scaled(digits: string, frac: nat, exponent: int): real
    requires AllDigits(digits)
  {
    Value(digits) as real * Pow10(exponent - frac)
  }

  // ---------------------------------------------------------------- reading

  /** An exponent part: nothing, or a mark, perhaps a sign, and digits to the end. */
  function Exponent(s: string): Option<int> {
    if s == "" then Some(0)
    else if s[0] != 'e' && s[0] != 'E' then None
    else
      var signed := |s| > 1 && (s[1] == '+' || s[1] == '-');
      var t := if signed then s[2..] else s[1..];
      if t == "" || DigitRun(t) != |t| then None
      else
        assert t[..|t|] == t;
        var v: int := Value(t);
        Some(if signed && s[1] == '-' then -v else v)
  }

  /** The value of an unsigned decimal: digits with a point before, between or behind them, and an exponent part. */
  function Unsigned(s: string): Option<real> {
    var n := DigitRun(s);
    var after := s[n..];
    var m := if after != "" && after[0] == '.' then DigitRun(after[1..]) else 0;
    var tail := if after != "" && after[0] == '.' then after[1 + m..] else after;
    if n == 0 && m == 0 then None
    else
      match Exponent(tail)
      case None => None
      case Some(e) =>
        var frac := if m > 0 then after[1..][..m] else "";
        Some(Scaled(s[..n] + frac, m, e))
  }

  /** What is behind the point and its digits, if there are digits on either side. */
  function FractionTail(after: string, whole: bool): Option<string> {
    if after != "" && after[0] == '.' then
      var m := DigitRun(after[1..]);
      if !whole && m == 0 then None else Some(after[1 + m..])
    else if whole then Some(after)
    else None
  }

  /** What is behind the digits and the point of an unsigned decimal, if it has any digits. */
  function MantissaTail(s: string): Option<string> {
    FractionTail(s[DigitRun(s)..], DigitRun(s) > 0)
  }

  lemma UnsignedShape(s: string)
    ensures Unsigned(s).Some? <==> MantissaTail(s).Some? && Exponent(MantissaTail(s).value).Some?
  {}

  function Negated(r: Option<real>): Option<real> {
    match r
    case None => None
    case Some(x) => Some(-x)
  }

  /** The value of a decimal text, if it is one. */
  function DecimalValue(s: string): Option<real> {
    if s != "" && s[0] == '-' then Negated(Unsigned(s[1..]))
    else if s != "" && s[0] == '+' then Unsigned(s[1..])
    else Unsigned(s)
  }

  /** Unicode white space and the byte order mark. */
  predicate IsSpace(c: char) {
    var n := c as int;
    || 0x9 <= n <= 0xd || n == 0x20 || n == 0x85 || n == 0xa0 || n == 0x1680 || 0x2000 <= n <= 0x200a
    || n == 0x2028 || n == 0x2029 || n == 0x202f || n == 0x205f || n == 0x3000 || n == 0xfeff
  }

  function Trimmed(s: string): string {
    if s != "" && IsSpace(s[0]) then Trimmed(s[1..])
    else if s != "" && IsSpace(s[|s| - 1]) then Trimmed(s[..|s| - 1])
    else s
  }

  ghost predicate AllSpace(s: string) {
    forall i | 0 <= i < |s| :: IsSpace(s[i])
  }

  /** What trimming takes away is white space. */
  lemma {:induction false} TrimmedParts(s: string) returns (before: string, after: string)
    ensures s == before + Trimmed(s) + after && AllSpace(before) && AllSpace(after)
  {
    if s != "" && IsSpace(s[0]) {
      before, after := TrimmedParts(s[1..]);
      assert s == [s[0]] + s[1..];
      before := [s[0]] + before;
    } else if s != "" && IsSpace(s[|s| - 1]) {
      before, after := TrimmedParts(s[..|s| - 1]);
      assert s == s[..|s| - 1] + [s[|s| - 1]];
      after := after + [s[|s| - 1]];
    } else {
      before, after := "", "";
    }
  }

  /** And it takes away all of it. */
  lemma {:induction false} TrimmedIs(before: string, middle: string, after: string)
    requires AllSpace(before) && AllSpace(after)
    requires middle != "" && !IsSpace(middle[0]) && !IsSpace(middle[|middle| - 1])
    ensures Trimmed(before + middle + after) == middle
    decreases |before| + |after|
  {
    var s := before + middle + after;
    if before != "" {
      assert s[0] == before[0] && s[1..] == before[1..] + middle + after;
      TrimmedIs(before[1..], middle, after);
    } else if after != "" {
      var front := after[..|after| - 1];
      assert s[0] == middle[0] && s[|s| - 1] == after[|after| - 1];
      assert s[..|s| - 1] == before + middle + front;
      TrimmedIs(before, middle, front);
    } else {
      assert s == middle;
    }
  }

  const MAX_EXPONENT: nat := 1024

  const PRECISION: nat := 53

  function TwoTo(n: nat): real {
    if n == 0 then 1.0 else 2.0 * TwoTo(n - 1)
  }

  /** The nearest double is finite: the number lies less than half a unit of the last place beyond the greatest one. */
  predicate IsFinite(x: real) {
    var limit := TwoTo(MAX_EXPONENT) - TwoTo(MAX_EXPONENT - PRECISION - 1);
    -limit < x < limit
  }

  /** The number a string writes, if it writes a finite one; white space around it is allowed. */
  function DecimalString(s: string): Option<real> {
    match DecimalValue(Trimmed(s))
    case None => None
    case Some(x) => if IsFinite(x) then Some(x) else None
  }

  method SkipDigits(b: string, from: nat) returns (i: nat)
    requires from <= |b|
    ensures i == from + DigitRun(b[from..])
  {
    i := from;
    while i < |b| && IsDigit(b[i])
      invariant from <= i <= |b| && DigitRun(b[from..]) == (i - from) + DigitRun(b[i..])
    {
      assert b[i..][1..] == b[i + 1..];
      i := i + 1;
    }
  }

  /** The exponent half of the scanner, from where the mantissa ends. */
  method ScanExponent(b: string, from: nat) returns (ok: bool)
    requires from <= |b|
    ensures ok <==> Exponent(b[from..]).Some?
  {
    var i := from;
    ghost var tail := b[from..];
    if i < |b| && (b[i] == 'e' || b[i] == 'E') {
      i := i + 1;
      if i < |b| && (b[i] == '+' || b[i] == '-') {
        i := i + 1;
      }
      var expStart := i;
      assert b[i..] == if |tail| > 1 && (tail[1] == '+' || tail[1] == '-') then tail[2..] else tail[1..];
      i := SkipDigits(b, i);
      if i == expStart {
        return false;
      }
    }
    return i == |b|;
  }

  lemma Slices(b: string, i: nat, m: nat)
    requires i + m <= |b|
    ensures b[i..][m..] == b[i + m..]
  {}

  /** The point and the digits behind it: whether the mantissa has any digits, and where it ends. */
  method ScanFraction(b: string, from: nat, whole: bool) returns (ok: bool, i: nat)
    requires from <= |b|
    ensures from <= i <= |b|
    ensures FractionTail(b[from..], whole) == if ok then Some(b[i..]) else None
  {
    i := from;
    if i < |b| && b[i] == '.' {
      i := i + 1;
      Slices(b, from, 1);
      i := SkipDigits(b, i);
      Slices(b, from, i - from);
      ok := whole || i != from + 1;
    } else {
      ok := whole;
    }
  }

  /** The mantissa of the scanner: whether there is one, and where it ends. */
  method ScanMantissa(b: string, from: nat) returns (ok: bool, i: nat)
    requires from <= |b|
    ensures from <= i <= |b|
    ensures MantissaTail(b[from..]) == if ok then Some(b[i..]) else None
  {
    i := SkipDigits(b, from);
    var intDigits := i - from;
    Slices(b, from, intDigits);
    ok, i := ScanFraction(b, i, intDigits > 0);
  }

  /** The scanner accepts exactly the decimal texts. */
  method ScanDecimal(b: string) returns (ok: bool)
    ensures ok <==> DecimalValue(b).Some?
  {
    var i := 0;
    if i < |b| && (b[i] == '+' || b[i] == '-') {
      i := i + 1;
    }
    assert i == 0 ==> b[i..] == b;
    UnsignedShape(b[i..]);
    var found, end := ScanMantissa(b, i);
    if !found {
      return false;
    }
    ok := ScanExponent(b, end);
  }

  /** Trims, scans, and then reads the value, which must not overflow. */
  method ReadDecimal(s: string) returns (r: Option<real>)
    ensures r == DecimalString(s)
  {
    hide DecimalValue, IsFinite;
    var t := Trimmed(s);
    var ok := ScanDecimal(t);
    r := None;
    if ok {
      var v := DecimalValue(t);
      if IsFinite(v.value) {
        r := v;
      }
    }
  }

  // ---------------------------------------------------------------- writing

  /** A finite double: zero, or sign, shortest digits, and where the point stands: 0.digits times 10^point. */
  datatype Double = Zero | Finite(negative: bool, digits: string, point: int)

  predicate DoubleOk(x: Double) {
    x.Finite? ==> x.digits != "" && AllDigits(x.digits) && x.digits[0] != '0'
  }

  function RealOf(x: Double): real
    requires DoubleOk(x)
  {
    match x
    case Zero => 0.0
    case Finite(negative, digits, point) =>
      var v := Scaled(digits, 0, point - |digits|);
      if negative then -v else v
  }

  function Zeros(n: nat): (z: string)
    ensures |z| == n && forall i | 0 <= i < n :: z[i] == '0'
  {
    seq(n, _ => '0')
  }

  function ExponentText(e: Option<int>): string {
    match e
    case None => ""
    case Some(x) => (if x >= 0 then "e+" else "e-") + Decimal(if x >= 0 then x else -x)
  }

  /** The layout of the digits (section 6.1.6.1.20 of ECMA-262): plain up to 21 places, else with an exponent. */
  function Layout(digits: string, n: int): string
    requires digits != ""
  {
    var k := |digits|;
    if k <= n <= 21 then digits + Zeros(n - k)
    else if 0 < n <= 21 then digits[..n] + "." + digits[n..]
    else if -6 < n <= 0 then "0." + Zeros(-n) + digits
    else
      if k == 1 then digits + ExponentText(Some(n - 1))
      else digits[..1] + "." + digits[1..] + ExponentText(Some(n - 1))
  }

  function JsNumber(x: Double): string
    requires DoubleOk(x)
  {
    match x
    case Zero => "0"
    case Finite(negative, digits, point) => if negative then "-" + Layout(digits, point) else Layout(digits, point)
  }

  // ---------------------------------------------------------------- the text denotes the number

  function Pow10Nat(n: nat): nat {
    if n == 0 then 1 else 10 * Pow10Nat(n - 1)
  }

  lemma {:induction false} ValueConcat(a: string, b: string)
    requires AllDigits(a) && AllDigits(b)
    ensures AllDigits(a + b) && Value(a + b) == Value(a) * Pow10Nat(|b|) + Value(b)
    decreases |b|
  {
    if b == "" {
      assert a + b == a;
    } else {
      var front := b[..|b| - 1];
      ValueConcat(a, front);
      assert (a + b)[..|a + b| - 1] == a + front;
      assert Value(a + b) == 10 * Value(a + front) + DigitValue(b[|b| - 1]);
      TenTimes(Value(a), Pow10Nat(|front|));
    }
  }

  lemma TenTimes(a: nat, p: nat)
    ensures 10 * (a * p) == a * (10 * p)
  {}

  lemma {:induction false} ZerosValue(n: nat)
    ensures AllDigits(Zeros(n)) && Value(Zeros(n)) == 0
  {
    if n > 0 {
      ZerosValue(n - 1);
      assert Zeros(n)[..n - 1] == Zeros(n - 1);
    }
  }

  lemma {:induction false} Pow10IsNat(n: nat)
    ensures Pow10(n) == Pow10Nat(n) as real
  {
    if n > 0 { Pow10IsNat(n - 1); }
  }

  /** A decimal text in parts: digits, perhaps a point and more digits, perhaps an exponent. */
  datatype Parts = Parts(whole: string, point: bool, frac: string, exponent: Option<int>)

  ghost predicate PartsOk(p: Parts) {
    && p.whole != "" && AllDigits(p.whole) && (p.whole[0] == '0' ==> |p.whole| == 1)
    && AllDigits(p.frac) && (p.point <==> p.frac != "")
  }

  function Behind(p: Parts): string {
    (if p.point then "." + p.frac else "") + ExponentText(p.exponent)
  }

  function PartsText(p: Parts): string {
    p.whole + Behind(p)
  }

  function PartsPower(p: Parts): int {
    if p.exponent.Some? then p.exponent.value else 0
  }

  lemma ExponentReads(e: Option<int>)
    ensures var text := ExponentText(e);
            && Exponent(text) == Some(if e.Some? then e.value else 0) && JsonText.IsExponent(text)
            && (text == "" || (!IsDigit(text[0]) && text[0] != '.'))
  {
    if e.Some? {
      var t := Decimal(if e.value >= 0 then e.value else -e.value);
      assert ExponentText(e)[2..] == t;
      DigitsAreARun(t);
    }
  }

  /** A run of digits ends where something else follows. */
  lemma RunOf(digits: string, rest: string)
    requires AllDigits(digits) && (rest != "" ==> !IsDigit(rest[0]))
    ensures DigitRun(digits + rest) == |digits| && (digits + rest)[..|digits|] == digits
            && (digits + rest)[|digits|..] == rest
  {
    DigitsAreARun(digits);
    if rest == "" {
      assert digits + rest == digits;
    } else {
      RunBefore(digits, rest);
    }
  }

  /** Behind a point stand the further digits and then the exponent. */
  lemma PointReads(frac: string, tail: string)
    requires AllDigits(frac) && (tail != "" ==> !IsDigit(tail[0]))
    ensures var after := "." + frac + tail;
            && after != "" && after[0] == '.'
            && DigitRun(after[1..]) == |frac| && after[1..][..|frac|] == frac && after[1 + |frac|..] == tail
  {
    var after := "." + frac + tail;
    assert after[1..] == frac + tail;
    RunOf(frac, tail);
    assert after[1 + |frac|..] == after[1..][|frac|..];
  }

  lemma BehindReads(p: Parts)
    requires PartsOk(p)
    ensures var after, tail := Behind(p), ExponentText(p.exponent);
            && (after == "" || !IsDigit(after[0]))
            && (p.point <==> after != "" && after[0] == '.')
            && (p.point ==>
                  && DigitRun(after[1..]) == |p.frac| && after[1..][..|p.frac|] == p.frac
                  && after[1 + |p.frac|..] == tail)
            && (!p.point ==> after == tail)
  {
    ExponentReads(p.exponent);
    if p.point {
      PointReads(p.frac, ExponentText(p.exponent));
    } else {
      assert Behind(p) == ExponentText(p.exponent);
    }
  }

  lemma PartsShape(p: Parts)
    requires PartsOk(p)
    ensures var t := PartsText(p);
            && t != "" && t[0] == p.whole[0]
            && DigitRun(t) == |p.whole| && t[..|p.whole|] == p.whole && t[|p.whole|..] == Behind(p)
  {
    BehindReads(p);
    hide Behind;
    RunOf(p.whole, Behind(p));
  }

  lemma BehindIsFraction(p: Parts)
    requires PartsOk(p)
    ensures JsonText.IsFraction(Behind(p))
  {
    BehindReads(p);
    ExponentReads(p.exponent);
    hide Behind, ExponentText, DigitRun;
  }

  lemma PartsAreJson(p: Parts)
    requires PartsOk(p)
    ensures JsonText.IsUnsigned(PartsText(p))
  {
    PartsShape(p);
    BehindIsFraction(p);
    hide PartsText, Behind, DigitRun;
  }

  lemma PartsDenote(p: Parts)
    requires PartsOk(p)
    ensures AllDigits(p.whole + p.frac)
    ensures Unsigned(PartsText(p)) == Some(Scaled(p.whole + p.frac, |p.frac|, PartsPower(p)))
  {
    BehindReads(p);
    ExponentReads(p.exponent);
    PartsShape(p);
    assert p.whole + "" == p.whole;
    hide PartsText, Behind, ExponentText, Exponent, DigitRun, Scaled;
  }

  /** The parts have the value their digits say, and are a JSON number. */
  lemma PartsRead(p: Parts)
    requires PartsOk(p)
    ensures AllDigits(p.whole + p.frac)
    ensures Unsigned(PartsText(p)) == Some(Scaled(p.whole + p.frac, |p.frac|, PartsPower(p)))
    ensures JsonText.IsUnsigned(PartsText(p))
  {
    hide *;
    PartsDenote(p);
    PartsAreJson(p);
  }

  function PartsOf(digits: string, n: int): Parts
    requires digits != ""
  {
    var k := |digits|;
    if k <= n <= 21 then Parts(digits + Zeros(n - k), false, "", None)
    else if 0 < n <= 21 then Parts(digits[..n], true, digits[n..], None)
    else if -6 < n <= 0 then Parts("0", true, Zeros(-n) + digits, None)
    else Parts(digits[..1], k > 1, digits[1..], Some(n - 1))
  }

  lemma LayoutIsParts(digits: string, n: int)
    requires digits != ""
    ensures Layout(digits, n) == PartsText(PartsOf(digits, n))
  {
    var k := |digits|;
    if k <= n <= 21 {
      Appended(digits + Zeros(n - k), "", "");
    } else if 0 < n <= 21 {
      Appended(digits[..n], ".", digits[n..]);
    } else if -6 < n <= 0 {
      SmallLayout(Zeros(-n), digits);
    } else {
      ExponentLayout(digits, n);
    }
  }

  lemma Appended(a: string, b: string, c: string)
    ensures a + b + c == a + ((b + c) + "")
  {}

  lemma SmallLayout(zeros: string, digits: string)
    ensures "0." + zeros + digits == "0" + (("." + (zeros + digits)) + "")
  {
    assert "0." == "0" + ".";
  }

  lemma ExponentLayout(digits: string, n: int)
    requires digits != "" && (n <= -6 || n > 21)
    ensures Layout(digits, n) == PartsText(PartsOf(digits, n))
  {
    hide ExponentText;
    var tail := ExponentText(Some(n - 1));
    if |digits| == 1 {
      assert digits[..1] == digits;
      assert "" + tail == tail;
    } else {
      assert digits[..1] + "." + digits[1..] + tail == digits[..1] + (("." + digits[1..]) + tail);
    }
  }

  lemma PartsOfOk(digits: string, n: int)
    requires digits != "" && AllDigits(digits) && digits[0] != '0'
    ensures PartsOk(PartsOf(digits, n))
  {
    ZerosValue(if n >= 0 then n else -n);
  }

  lemma PaddedValue(digits: string, m: nat)
    requires AllDigits(digits)
    ensures AllDigits(digits + Zeros(m)) && Scaled(digits + Zeros(m), 0, 0) == Scaled(digits, 0, m)
  {
    ZerosValue(m);
    hide Value, Zeros;
    ValueConcat(digits, Zeros(m));
    Pow10IsNat(m);
    assert Pow10(0) == 1.0;
    hide Pow10, Pow10Nat;
    RealProduct(Value(digits), Pow10Nat(m));
  }

  lemma RealProduct(a: nat, b: nat)
    ensures (a * b) as real == a as real * b as real
  {}

  lemma LeadingZerosValue(digits: string, m: nat)
    requires AllDigits(digits)
    ensures AllDigits("0" + (Zeros(m) + digits)) && Value("0" + (Zeros(m) + digits)) == Value(digits)
  {
    ZerosValue(m);
    ValueConcat(Zeros(m), digits);
    assert Value("0") == 0 by { assert "0"[..0] == ""; }
    ValueConcat("0", Zeros(m) + digits);
  }

  lemma SamePower(a: string, b: string, frac: nat, exponent: int, power: int)
    requires AllDigits(a) && AllDigits(b) && Value(a) == Value(b) && exponent - frac == power
    ensures Scaled(a, frac, exponent) == Scaled(b, 0, power)
  {
    hide Pow10, Value;
  }

  /** However they are laid out, the digits keep their value. */
  lemma PartsValue(digits: string, n: int)
    requires digits != "" && AllDigits(digits) && digits[0] != '0'
    ensures var p := PartsOf(digits, n);
            AllDigits(p.whole + p.frac)
              && Scaled(p.whole + p.frac, |p.frac|, PartsPower(p)) == Scaled(digits, 0, n - |digits|)
  {
    var k := |digits|;
    var p := PartsOf(digits, n);
    if k <= n <= 21 {
      PaddedValue(digits, n - k);
      assert p.whole + p.frac == digits + Zeros(n - k);
    } else if 0 < n <= 21 {
      assert p.whole + p.frac == digits;
      SamePower(digits, digits, |p.frac|, 0, n - k);
    } else if -6 < n <= 0 {
      LeadingZerosValue(digits, -n);
      SamePower(p.whole + p.frac, digits, |p.frac|, 0, n - k);
    } else {
      assert p.whole + p.frac == digits;
      SamePower(digits, digits, |p.frac|, n - 1, n - k);
    }
  }

  lemma LayoutReads(digits: string, n: int)
    requires digits != "" && AllDigits(digits) && digits[0] != '0'
    ensures Unsigned(Layout(digits, n)) == Some(Scaled(digits, 0, n - |digits|))
    ensures JsonText.IsUnsigned(Layout(digits, n))
    ensures Layout(digits, n) != "" && IsDigit(Layout(digits, n)[0])
  {
    LayoutIsParts(digits, n);
    PartsOfOk(digits, n);
    PartsValue(digits, n);
    PartsRead(PartsOf(digits, n));
  }

  lemma ZeroReads()
    ensures Unsigned("0") == Some(0.0) && JsonText.IsUnsigned("0")
  {
    var p := Parts("0", false, "", None);
    PartsRead(p);
    assert PartsText(p) == "0" && p.whole + p.frac == "0";
    assert Value("0") == 0 by { assert "0"[..0] == ""; }
  }

  /** The text denotes exactly the number, and the recipe's scanner accepts it. */
  lemma JsNumberDenotes(x: Double)
    requires DoubleOk(x)
    ensures DecimalValue(JsNumber(x)) == Some(RealOf(x))
  {
    hide Unsigned, Layout, Scaled;
    match x
    case Zero => ZeroReads();
    case Finite(negative, digits, point) =>
      LayoutReads(digits, point);
      assert ("-" + Layout(digits, point))[1..] == Layout(digits, point);
  }

  lemma ExponentEndsInDigit(e: int)
    ensures var t := ExponentText(Some(e)); t != "" && IsDigit(t[|t| - 1])
  {
    var d := Decimal(if e >= 0 then e else -e);
    var t := ExponentText(Some(e));
    assert t[|t| - 1] == d[|d| - 1];
  }

  lemma PartsEndInDigit(p: Parts)
    requires PartsOk(p)
    ensures var t := PartsText(p); t != "" && IsDigit(t[|t| - 1])
  {
    if p.exponent.Some? {
      ExponentEndsInDigit(p.exponent.value);
      hide ExponentText;
      var tail := ExponentText(p.exponent);
      assert PartsText(p)[|PartsText(p)| - 1] == tail[|tail| - 1];
    } else if p.point {
      assert PartsText(p)[|PartsText(p)| - 1] == p.frac[|p.frac| - 1];
    } else {
      assert PartsText(p) == p.whole;
    }
  }

  lemma NothingToTrim(s: string)
    requires s != "" && !IsSpace(s[0]) && !IsSpace(s[|s| - 1])
    ensures Trimmed(s) == s
  {}

  lemma LayoutEnds(digits: string, n: int)
    requires digits != "" && AllDigits(digits) && digits[0] != '0'
    ensures var t := Layout(digits, n); t != "" && IsDigit(t[0]) && IsDigit(t[|t| - 1])
  {
    hide *;
    LayoutIsParts(digits, n);
    PartsOfOk(digits, n);
    PartsEndInDigit(PartsOf(digits, n));
    LayoutReads(digits, n);
  }

  lemma JsNumberIsTrimmed(x: Double)
    requires DoubleOk(x)
    ensures Trimmed(JsNumber(x)) == JsNumber(x)
  {
    if x.Finite? { LayoutEnds(x.digits, x.point); }
    hide Layout, Trimmed;
    var t := JsNumber(x);
    assert t != "" && !IsSpace(t[0]) && !IsSpace(t[|t| - 1]);
    NothingToTrim(t);
  }

  predicate IsPlainChar(c: char) {
    IsDigit(c) || c == '.'
  }

  /** `text` has only digits and points up to `n`, and then the mark of an exponent, if `n` is not its end. */
  ghost predicate PlainTo(text: string, n: nat) {
    && n <= |text| && (forall i | 0 <= i < n :: IsPlainChar(text[i]))
    && (n < |text| ==> text[n] == 'e')
  }

  /**
   Numbers are laid out plainly while the point stands at most 21 places behind the first digit and at most 6 zeros
   before it, as whole digits while no digit is behind the point; all others with an exponent.
   */
  lemma LayoutForm(digits: string, n: int) returns (end: nat)
    requires digits != "" && AllDigits(digits) && digits[0] != '0'
    ensures var t := Layout(digits, n);
            && PlainTo(t, end) && (end == |t| <==> -6 < n <= 21)
            && (|digits| <= n <= 21 ==> |t| == n && AllDigits(t) && digits <= t)
            && (0 < n < |digits| && n <= 21 ==> |t| == |digits| + 1 && t[n] == '.')
            && (-6 < n <= 0 ==> |t| == |digits| + 2 - n && t[0] == '0' && t[1] == '.')
            && (!(-6 < n <= 21) ==> end == (if |digits| == 1 then 1 else |digits| + 1))
  {
    ZerosValue(if n >= 0 then n else -n);
    var t := Layout(digits, n);
    end := if -6 < n <= 21 then |t| else if |digits| == 1 then 1 else |digits| + 1;
    if |digits| <= n <= 21 {
      ValueConcat(digits, Zeros(n - |digits|));
    }
  }

  /** What is written for a finite double is read back as that number. */
  lemma JsNumberReads(x: Double)
    requires DoubleOk(x) && IsFinite(RealOf(x))
    ensures DecimalString(JsNumber(x)) == Some(RealOf(x))
  {
    hide JsNumber, RealOf, IsFinite, DecimalValue;
    JsNumberIsTrimmed(x);
    JsNumberDenotes(x);
  }

  /** Different numbers are written differently. */
  lemma JsNumberInjective(x: Double, y: Double)
    requires DoubleOk(x) && DoubleOk(y) && JsNumber(x) == JsNumber(y)
    ensures RealOf(x) == RealOf(y)
  {
    JsNumberDenotes(x);
    JsNumberDenotes(y);
  }

  /** The text is a JSON number. */
  lemma JsNumberIsJson(x: Double)
    requires DoubleOk(x)
    ensures JsonText.IsNumber(JsNumber(x))
  {
    hide Layout, Scaled;
    match x
    case Zero => ZeroReads();
    case Finite(negative, digits, point) =>
      LayoutReads(digits, point);
      assert ("-" + Layout(digits, point))[1..] == Layout(digits, point);
  }
}
