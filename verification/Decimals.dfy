/**
 Exact arithmetic on decimal strings, in the two forms the TypeScript SDK has: the aligned
 big-integer form of `evaluator.ts` and the digit-by-digit form of `index.ts`.

 `Value` gives the number a decimal string denotes and is the reference for both.
 */
module Decimals {
  import opened Wrappers

  /******* Syntax *******/

  predicate IsDigit(c: char) {
    '0' <= c <= '9'
  }

  predicate AllDigits(s: string) {
    forall i :: 0 <= i < |s| ==> IsDigit(s[i])
  }

  /** `0|[1-9][0-9]*` */
  predicate IsWhole(s: string) {
    s != "" && AllDigits(s) && (s[0] == '0' ==> |s| == 1)
  }

  /** The position of the first dot, or the length when there is none. */
  function DotAt(s: string): (n: nat)
    ensures n <= |s|
    ensures n < |s| ==> s[n] == '.'
    ensures forall i :: 0 <= i < n ==> s[i] != '.'
  {
    if s == "" || s[0] == '.' then 0 else 1 + DotAt(s[1..])
  }

  function Whole(s: string): string {
    s[..DotAt(s)]
  }

  function Fraction(s: string): string {
    if DotAt(s) < |s| then s[DotAt(s) + 1..] else ""
  }

  /** `^(0|[1-9][0-9]*)(\.[0-9]+)?$` */
  predicate IsDecimal(s: string) {
    && IsWhole(Whole(s))
    && (DotAt(s) < |s| ==> Fraction(s) != "" && AllDigits(Fraction(s)))
  }

  /******* Digits and integers *******/

  function DigitOf(n: nat): (c: char)
    requires n < 10
    ensures IsDigit(c)
  {
    '0' + n as char
  }

  function DigitValue(c: char): (n: nat)
    requires IsDigit(c)
    ensures n < 10 && DigitOf(n) == c
  {
    c as int - '0' as int
  }

  /** `BigInt(s)` on a digit string (the empty string is zero). */
  function DigitsValue(s: string): nat
    requires AllDigits(s)
  {
    if s == "" then 0
    else DigitsValue(s[..|s| - 1]) * 10 + DigitValue(s[|s| - 1])
  }

  /** `toString()` of a non-negative integer: only zero prints with a leading zero. */
  function NatToString(n: nat): (s: string)
    ensures IsWhole(s) && (s[0] == '0' ==> n == 0)
  {
    if n < 10 then [DigitOf(n)] else NatToString(n / 10) + [DigitOf(n % 10)]
  }

  /** `toString()` of a JavaScript integer. */
  function IntToString(n: int): string {
    if n < 0 then "-" + NatToString(-n) else NatToString(n)
  }

  function Zeros(n: nat): (s: string)
    ensures |s| == n && forall i :: 0 <= i < n ==> s[i] == '0'
  {
    seq(n, _ => '0')
  }

  function PadStart(s: string, width: nat): string {
    if |s| >= width then s else Zeros(width - |s|) + s
  }

  function PadEnd(s: string, width: nat): string {
    if |s| >= width then s else s + Zeros(width - |s|)
  }

  function Pow10(n: nat): (p: nat)
    ensures p > 0
  {
    if n == 0 then 1 else 10 * Pow10(n - 1)
  }

  /******* The aligned big-integer form (evaluator.ts) *******/

  datatype Decimal = Decimal(coefficient: int, scale: nat)

  function Parse(s: string): Checked<Decimal> {
    if !IsDecimal(s) then Threw
    else
      Returned(Decimal(Coefficient(s), |Fraction(s)|))
  }

  function Format(coefficient: int, scale: nat): string {
    if scale == 0 then IntToString(coefficient)
    else
      var digits := PadStart(IntToString(coefficient), scale + 1);
      digits[..|digits| - scale] + "." + digits[|digits| - scale..]
  }

  function MaxNat(a: nat, b: nat): nat {
    if a >= b then a else b
  }

  function Align(left: Decimal, right: Decimal): (int, int, nat) {
    var scale := MaxNat(left.scale, right.scale);
    (left.coefficient * Pow10(scale - left.scale), right.coefficient * Pow10(scale - right.scale), scale)
  }

  function Compare(left: string, right: string): Checked<int> {
    var l :- Parse(left);
    var r :- Parse(right);
    var (a, b, _) := Align(l, r);
    Returned(if a == b then 0 else if a > b then 1 else -1)
  }

  function Add(left: string, right: string): Checked<string> {
    var l :- Parse(left);
    var r :- Parse(right);
    var (a, b, scale) := Align(l, r);
    Returned(Format(a + b, scale))
  }

  function Multiply(value: string, multiplier: int): Checked<string> {
    var v :- Parse(value);
    Returned(Format(v.coefficient * multiplier, v.scale))
  }

  /******* The digit-string form (index.ts) *******/

  /** JavaScript's `<` on strings. */
  predicate LexLess(a: string, b: string) {
    if b == "" then false
    else if a == "" then true
    else a[0] < b[0] || (a[0] == b[0] && LexLess(a[1..], b[1..]))
  }

  /** `None` is JavaScript's NaN. */
  function CompareDigits(left: string, right: string): Option<int> {
    if !IsDecimal(left) || !IsDecimal(right) then None
    else
      var leftWhole, rightWhole := Whole(left), Whole(right);
      if |leftWhole| != |rightWhole| then Some(if |leftWhole| > |rightWhole| then 1 else -1)
      else if leftWhole != rightWhole then Some(if LexLess(rightWhole, leftWhole) then 1 else -1)
      else
        var width := MaxNat(|Fraction(left)|, |Fraction(right)|);
        var a, b := PadEnd(Fraction(left), width), PadEnd(Fraction(right), width);
        Some(if a == b then 0 else if LexLess(b, a) then 1 else -1)
  }

  const MAX_SAFE_INTEGER := 9007199254740991

  function MultiplyDigits(value: string, multiplier: int): string {
    if !IsDecimal(value) || multiplier < 0 || multiplier > MAX_SAFE_INTEGER then "invalid"
    else
      var fraction := Fraction(value);
      var coefficient := Coefficient(value) * multiplier;
      if |fraction| == 0 then NatToString(coefficient)
      else
        var digits := PadStart(NatToString(coefficient), |fraction| + 1);
        digits[..|digits| - |fraction|] + "." + digits[|digits| - |fraction|..]
  }

  /******* Meaning *******/

  function Coefficient(s: string): nat
    requires IsDecimal(s)
  {
    DigitsValue(Whole(s) + Fraction(s))
  }

  /** `c` followed by `n` zeros. */
  ghost function Shift(c: int, n: nat): int {
    if n == 0 then c else 10 * Shift(c, n - 1)
  }

  /** The coefficient of `s` written with `k` fraction digits. */
  ghost function Scaled(s: string, k: nat): int
    requires IsDecimal(s) && k >= |Fraction(s)|
  {
    Shift(Coefficient(s), k - |Fraction(s)|)
  }

  /** The number with coefficient `c` and `scale` fraction digits. */
  ghost function Denotes(c: int, scale: nat): real {
    if scale == 0 then c as real else Denotes(c, scale - 1) / 10.0
  }

  /** The number a decimal string denotes. */
  ghost function Value(s: string): real
    requires IsDecimal(s)
  {
    Denotes(Coefficient(s), |Fraction(s)|)
  }

  /******* Digit lemmas *******/

  lemma {:induction false} PrintedValue(n: nat)
    ensures DigitsValue(NatToString(n)) == n
  {
    if n >= 10 {
      PrintedValue(n / 10);
      var s := NatToString(n);
      assert s[..|s| - 1] == NatToString(n / 10);
    }
  }

  lemma {:induction false} LeadingZeros(n: nat, s: string)
    requires AllDigits(s)
    ensures AllDigits(Zeros(n) + s) && DigitsValue(Zeros(n) + s) == DigitsValue(s)
  {
    var t := Zeros(n) + s;
    if s != "" {
      LeadingZeros(n, s[..|s| - 1]);
      assert t[..|t| - 1] == Zeros(n) + s[..|s| - 1];
    } else if n > 0 {
      LeadingZeros(n - 1, "");
      assert t[..|t| - 1] == Zeros(n - 1) + "";
    }
  }

  lemma PadAppend(s: string, width: nat, c: char)
    ensures PadStart(s + [c], width + 1) == PadStart(s, width) + [c]
  {
    if |s| < width {
      assert Zeros(width - |s|) + (s + [c]) == (Zeros(width - |s|) + s) + [c];
    }
  }

  lemma {:induction false} ZeroDigits(s: string)
    requires AllDigits(s) && DigitsValue(s) == 0
    ensures forall i :: 0 <= i < |s| ==> s[i] == '0'
  {
    if s != "" {
      ZeroDigits(s[..|s| - 1]);
    }
  }

  /** Printing a digit string's value and padding it back restores the digit string. */
  lemma {:induction false} PaddedPrint(s: string)
    requires AllDigits(s) && s != ""
    ensures PadStart(NatToString(DigitsValue(s)), |s|) == s
  {
    var t, c := s[..|s| - 1], s[|s| - 1];
    var v := DigitsValue(t);
    assert s == t + [c];
    assert DigitsValue(s) == v * 10 + DigitValue(c);
    if v == 0 {
      PaddedDigit(t, c);
    } else {
      hide DigitsValue, NatToString, PadStart, AllDigits;
      PaddedPrint(t);
      PrintAppend(v, c);
      PadAppend(NatToString(v), |t|, c);
    }
  }

  lemma PaddedDigit(t: string, c: char)
    requires AllDigits(t) && DigitsValue(t) == 0 && IsDigit(c)
    ensures PadStart(NatToString(DigitValue(c)), |t| + 1) == t + [c]
  {
    ZeroDigits(t);
    hide DigitsValue, AllDigits;
    assert NatToString(DigitValue(c)) == [c];
    assert Zeros(|t|) == t;
  }

  lemma PrintAppend(v: nat, c: char)
    requires v > 0 && IsDigit(c)
    ensures NatToString(v * 10 + DigitValue(c)) == NatToString(v) + [c]
  {
    assert (v * 10 + DigitValue(c)) / 10 == v;
  }

  lemma WholePrint(s: string)
    requires IsWhole(s)
    ensures NatToString(DigitsValue(s)) == s
  {
    PaddedPrint(s);
  }

  lemma TimesTenfold(x: int, p: int)
    ensures x * (10 * p) == 10 * (x * p)
  {
  }

  lemma {:induction false} SplitValue(a: string, b: string)
    requires AllDigits(a) && AllDigits(b)
    ensures AllDigits(a + b) && DigitsValue(a + b) == DigitsValue(a) * Pow10(|b|) + DigitsValue(b)
  {
    if b == "" {
      assert a + b == a;
    } else {
      var c := b[..|b| - 1];
      SplitValue(a, c);
      assert (a + b)[..|a + b| - 1] == a + c;
      TimesTenfold(DigitsValue(a), Pow10(|c|));
    }
  }

  lemma {:induction false} DigitsBound(s: string)
    requires AllDigits(s)
    ensures DigitsValue(s) < Pow10(|s|)
  {
    if s != "" {
      DigitsBound(s[..|s| - 1]);
    }
  }

  /** A whole part of two or more digits is at least the power of ten below it. */
  lemma {:induction false} WholeLowerBound(s: string)
    requires IsWhole(s) && |s| >= 2
    ensures DigitsValue(s) >= Pow10(|s| - 1)
  {
    if |s| > 2 {
      WholeLowerBound(s[..|s| - 1]);
    } else {
      assert s[..1][..0] == "";
    }
  }

  /******* Powers of ten *******/

  lemma {:induction false} Pow10Sum(a: nat, b: nat)
    ensures Pow10(a + b) == Pow10(a) * Pow10(b)
  {
    if a > 0 {
      Pow10Sum(a - 1, b);
    }
  }

  lemma {:induction false} Pow10Monotone(a: nat, b: nat)
    requires a <= b
    ensures Pow10(a) <= Pow10(b)
  {
    if a < b {
      Pow10Monotone(a, b - 1);
    }
  }

  lemma {:induction false} ShiftIsProduct(c: int, n: nat)
    ensures Shift(c, n) == c * Pow10(n)
  {
    if n > 0 {
      ShiftIsProduct(c, n - 1);
    }
  }

  lemma {:induction false} ShiftTwice(c: int, a: nat, b: nat)
    ensures Shift(c, a + b) == Shift(Shift(c, a), b)
  {
    if b > 0 {
      ShiftTwice(c, a, b - 1);
    }
  }

  lemma {:induction false} ShiftSum(a: int, b: int, n: nat)
    ensures Shift(a + b, n) == Shift(a, n) + Shift(b, n)
  {
    if n > 0 {
      ShiftSum(a, b, n - 1);
    }
  }

  lemma {:induction false} ShiftNonNegative(c: nat, n: nat)
    ensures Shift(c, n) >= 0
  {
    if n > 0 {
      ShiftNonNegative(c, n - 1);
    }
  }

  lemma {:induction false} DenotesTenfold(c: int, k: nat)
    ensures Denotes(10 * c, k) == 10.0 * Denotes(c, k)
  {
    if k > 0 {
      DenotesTenfold(c, k - 1);
    }
  }

  lemma {:induction false} DenotesShifted(c: int, n: nat, k: nat)
    ensures Denotes(Shift(c, n), k + n) == Denotes(c, k)
  {
    if n > 0 {
      DenotesShifted(c, n - 1, k);
      DenotesTenfold(Shift(c, n - 1), k + n - 1);
    }
  }

  /** Bringing two coefficients to scale `m` and then to `k` is bringing them to `k`. */
  lemma ShiftedSum(a: int, n: nat, b: int, l: nat, m: nat, k: nat)
    requires n <= m <= k && l <= m
    ensures Shift(Shift(a, m - n) + Shift(b, m - l), k - m) == Shift(a, k - n) + Shift(b, k - l)
  {
    ShiftSum(Shift(a, m - n), Shift(b, m - l), k - m);
    ShiftTwice(a, m - n, k - m);
    ShiftTwice(b, m - l, k - m);
  }

  /** The sum of two coefficients at scale `k` denotes the sum of their numbers. */
  lemma DenotedSum(a: int, n: nat, b: int, l: nat, k: nat)
    requires n <= k && l <= k
    ensures Denotes(Shift(a, k - n) + Shift(b, k - l), k) == Denotes(a, n) + Denotes(b, l)
  {
    DenotesSum(Shift(a, k - n), Shift(b, k - l), k);
    DenotesShifted(a, k - n, n);
    DenotesShifted(b, k - l, l);
  }

  /** Any scale that holds all digits gives the same number. */
  lemma ScaledValue(s: string, k: nat)
    requires IsDecimal(s) && k >= |Fraction(s)|
    ensures Value(s) == Denotes(Scaled(s, k), k)
  {
    hide Coefficient, IsDecimal;
    DenotesShifted(Coefficient(s), k - |Fraction(s)|, |Fraction(s)|);
  }

  /******* Printing and parsing are exact inverses *******/

  /** Formatting a parsed decimal gives back the same string. */
  lemma FormatParse(s: string)
    requires IsDecimal(s)
    ensures Format(Coefficient(s), |Fraction(s)|) == s
  {
    var w, f := Whole(s), Fraction(s);
    if f == "" {
      assert w + f == w == s;
      WholePrint(w);
    } else {
      PointedPrint(w, f);
      assert s == w + "." + f;
    }
  }

  lemma PointedPrint(w: string, f: string)
    requires IsWhole(w) && AllDigits(f) && f != ""
    ensures AllDigits(w + f) && Format(DigitsValue(w + f), |f|) == w + "." + f
  {
    hide DigitsValue, NatToString;
    var digits := w + f;
    var printed := NatToString(DigitsValue(digits));
    assert PadStart(printed, |f| + 1) == digits by {
      if w[0] == '0' {
        PaddedPrint(digits);
      } else {
        WholePrint(digits);
      }
    }
    hide PadStart, AllDigits, IsWhole;
    assert digits[..|digits| - |f|] == w && digits[|digits| - |f|..] == f;
  }

  lemma {:induction false} DotBetween(w: string, f: string)
    requires AllDigits(w)
    ensures DotAt(w + "." + f) == |w| && Whole(w + "." + f) == w && Fraction(w + "." + f) == f
  {
    var s := w + "." + f;
    if w == "" {
      assert s[0] == '.';
    } else {
      DotBetween(w[1..], f);
      assert s[1..] == w[1..] + "." + f;
    }
  }

  lemma {:induction false} NoDot(w: string)
    requires AllDigits(w)
    ensures DotAt(w) == |w| && Whole(w) == w && Fraction(w) == ""
  {
    if w != "" {
      NoDot(w[1..]);
    }
  }

  lemma PaddedDigits(c: nat, width: nat)
    ensures var digits := PadStart(NatToString(c), width);
            && |digits| >= width && AllDigits(digits) && DigitsValue(digits) == c
            && (|digits| > width ==> IsWhole(digits))
  {
    PrintedValue(c);
    var printed := NatToString(c);
    if |printed| < width {
      LeadingZeros(width - |printed|, printed);
    }
  }

  lemma FormattedParts(c: nat, scale: nat, digits: string, w: string, f: string)
    requires scale > 0 && digits == PadStart(NatToString(c), scale + 1) && digits == w + f && |f| == scale
    ensures IsDecimal(w + "." + f)
    ensures Whole(w + "." + f) == w && Fraction(w + "." + f) == f
  {
    PaddedDigits(c, scale + 1);
    assert w == digits[..|digits| - scale];
    assert f == digits[|digits| - scale..];
    assert IsWhole(w);
    DotBetween(w, f);
  }

  lemma ParsePrinted(c: nat)
    ensures Parse(NatToString(c)) == Returned(Decimal(c, 0))
  {
    var printed := NatToString(c);
    PrintedValue(c);
    NoDot(printed);
    assert printed + "" == printed;
  }

  lemma ParsePointed(c: nat, scale: nat, digits: string)
    requires scale > 0 && digits == PadStart(NatToString(c), scale + 1) && |digits| > scale
    ensures Parse(digits[..|digits| - scale] + "." + digits[|digits| - scale..]) == Returned(Decimal(c, scale))
  {
    hide DigitsValue, NatToString, PadStart;
    PaddedDigits(c, scale + 1);
    var w, f := digits[..|digits| - scale], digits[|digits| - scale..];
    assert digits == w + f;
    FormattedParts(c, scale, digits, w, f);
  }

  /** Parsing a formatted coefficient gives back that coefficient and scale. */
  lemma ParseFormat(c: nat, scale: nat)
    ensures IsDecimal(Format(c, scale))
    ensures Parse(Format(c, scale)) == Returned(Decimal(c, scale))
  {
    hide DigitsValue, NatToString, PadStart, Parse, IsDecimal;
    PaddedDigits(c, scale + 1);
    if scale == 0 {
      ParsePrinted(c);
    } else {
      ParsePointed(c, scale, PadStart(NatToString(c), scale + 1));
    }
    ParsedIsDecimal(Format(c, scale));
  }

  lemma ParsedIsDecimal(s: string)
    requires Parse(s).Returned?
    ensures IsDecimal(s)
  {
  }

  /******* The aligned operations compute with the denoted numbers *******/

  lemma {:induction false} DenotesOrder(a: int, b: int, k: nat)
    ensures Denotes(a, k) < Denotes(b, k) <==> a < b
    ensures Denotes(a, k) == Denotes(b, k) <==> a == b
  {
    if k > 0 {
      DenotesOrder(a, b, k - 1);
    }
  }

  lemma {:induction false} DenotesSum(a: int, b: int, k: nat)
    ensures Denotes(a + b, k) == Denotes(a, k) + Denotes(b, k)
  {
    if k > 0 {
      DenotesSum(a, b, k - 1);
    }
  }

  lemma {:induction false} DenotesProduct(a: int, n: nat, k: nat)
    ensures Denotes(a * n, k) == Denotes(a, k) * n as real
  {
    if n == 0 {
      DenotesZero(k);
    } else {
      DenotesProduct(a, n - 1, k);
      assert a * n == a * (n - 1) + a;
      DenotesSum(a * (n - 1), a, k);
    }
  }

  lemma {:induction false} DenotesZero(k: nat)
    ensures Denotes(0, k) == 0.0
  {
    if k > 0 {
      DenotesZero(k - 1);
    }
  }

  ghost function CommonScale(left: string, right: string): nat {
    MaxNat(|Fraction(left)|, |Fraction(right)|)
  }

  lemma AlignedScaled(left: string, right: string)
    requires IsDecimal(left) && IsDecimal(right)
    ensures var k := CommonScale(left, right);
            && Align(Parse(left).value, Parse(right).value) == (Scaled(left, k), Scaled(right, k), k)
            && Scaled(left, k) >= 0 && Scaled(right, k) >= 0
  {
    hide Coefficient, IsDecimal, Pow10, Shift;
    var k := CommonScale(left, right);
    ShiftIsProduct(Coefficient(left), k - |Fraction(left)|);
    ShiftIsProduct(Coefficient(right), k - |Fraction(right)|);
    ShiftNonNegative(Coefficient(left), k - |Fraction(left)|);
    ShiftNonNegative(Coefficient(right), k - |Fraction(right)|);
  }

  /** Comparison throws exactly on a non-decimal and otherwise orders the denoted numbers. */
  lemma CompareMeaning(left: string, right: string)
    ensures Compare(left, right).Returned? <==> IsDecimal(left) && IsDecimal(right)
    ensures Compare(left, right).Returned? ==>
              var c := Compare(left, right).value;
              && -1 <= c <= 1
              && (c > 0 <==> Value(left) > Value(right))
              && (c == 0 <==> Value(left) == Value(right))
  {
    hide Coefficient, IsDecimal, Scaled, Denotes;
    if IsDecimal(left) && IsDecimal(right) {
      var k := CommonScale(left, right);
      AlignedScaled(left, right);
      ScaledValue(left, k);
      ScaledValue(right, k);
      DenotesOrder(Scaled(left, k), Scaled(right, k), k);
      DenotesOrder(Scaled(right, k), Scaled(left, k), k);
    }
  }

  lemma NonNegativeProduct(a: nat, b: nat)
    ensures a * b >= 0
  {
  }

  /** `x` has the coefficient and scale of the sum of `a` and `b`. */
  ghost predicate IsSum(x: string, a: string, b: string) {
    && IsDecimal(a) && IsDecimal(b) && IsDecimal(x)
    && |Fraction(x)| == CommonScale(a, b)
    && Coefficient(x) == Scaled(a, CommonScale(a, b)) + Scaled(b, CommonScale(a, b))
  }

  lemma {:induction false} AddShape(a: string, b: string)
    requires IsDecimal(a) && IsDecimal(b)
    ensures Add(a, b).Returned? && IsSum(Add(a, b).value, a, b)
  {
    hide Coefficient, IsDecimal, Format, Scaled;
    var k := CommonScale(a, b);
    AlignedScaled(a, b);
    ParseFormat(Scaled(a, k) + Scaled(b, k), k);
  }

  lemma {:induction false} SumValue(x: string, a: string, b: string)
    requires IsSum(x, a, b)
    ensures Value(x) == Value(a) + Value(b)
  {
    hide Coefficient, IsDecimal;
    DenotedSum(Coefficient(a), |Fraction(a)|, Coefficient(b), |Fraction(b)|, CommonScale(a, b));
  }

  /** Addition throws exactly on a non-decimal and otherwise denotes the exact sum. */
  lemma AddMeaning(left: string, right: string)
    ensures Add(left, right).Returned? <==> IsDecimal(left) && IsDecimal(right)
    ensures Add(left, right).Returned? ==>
              && IsDecimal(Add(left, right).value)
              && Value(Add(left, right).value) == Value(left) + Value(right)
  {
    if IsDecimal(left) && IsDecimal(right) {
      AddShape(left, right);
      SumValue(Add(left, right).value, left, right);
    }
  }

  /** Multiplication by a non-negative integer denotes the exact product. */
  lemma {:induction false} MultiplyMeaning(value: string, n: nat)
    requires IsDecimal(value)
    ensures Multiply(value, n).Returned? && IsDecimal(Multiply(value, n).value)
    ensures Value(Multiply(value, n).value) == Value(value) * n as real
  {
    hide Coefficient, IsDecimal, Multiply, Denotes;
    MultiplyShape(value, n);
    DenotesProduct(Coefficient(value), n, |Fraction(value)|);
  }

  lemma MultiplyShape(value: string, n: nat)
    requires IsDecimal(value)
    ensures Multiply(value, n).Returned? && IsDecimal(Multiply(value, n).value)
    ensures Value(Multiply(value, n).value) == Denotes(Coefficient(value) * n, |Fraction(value)|)
  {
    hide Coefficient, IsDecimal, Format;
    var c, k := Coefficient(value), |Fraction(value)|;
    NonNegativeProduct(c, n);
    ParseFormat(c * n, k);
    PartsValue(Format(c * n, k), c * n, k);
  }

  lemma PartsValue(s: string, c: nat, k: nat)
    requires Parse(s) == Returned(Decimal(c, k))
    ensures IsDecimal(s) && Value(s) == Denotes(c, k)
  {
  }

  /** A decimal holds digits and dots only. */
  lemma DecimalCharacters(s: string, i: nat)
    requires IsDecimal(s) && i < |s|
    ensures IsDigit(s[i]) || s[i] == '.'
  {
    var n := DotAt(s);
    if i < n {
      assert s[i] == Whole(s)[i];
    } else if i > n {
      assert s[i] == Fraction(s)[i - n - 1];
    }
  }

  /** A formatted negative number keeps its sign, so it is not a decimal. */
  lemma NegativeIsNoDecimal(c: int, k: nat)
    requires c < 0
    ensures !IsDecimal(Format(c, k))
  {
    var printed := IntToString(c);
    assert printed[0] == '-';
    hide NatToString, IntToString, IsDecimal;
    if k == 0 {
      SignIsNoDecimal(printed, 0);
    } else {
      var digits := PadStart(printed, k + 1);
      var at := |digits| - |printed|;
      assert digits[at] == '-';
      hide PadStart;
      if at < |digits| - k {
        SignIsNoDecimal(Format(c, k), at);
      } else {
        SignIsNoDecimal(Format(c, k), at + 1);
      }
    }
  }

  lemma SignIsNoDecimal(s: string, i: nat)
    requires i < |s| && s[i] == '-'
    ensures !IsDecimal(s)
  {
    hide IsDecimal;
    if IsDecimal(s) {
      DecimalCharacters(s, i);
    }
  }

  /** Multiplication by a negative integer prints a decimal only for zero. */
  lemma MultiplyNegative(value: string, n: int)
    requires IsDecimal(value) && n < 0
    ensures Multiply(value, n).Returned?
    ensures IsDecimal(Multiply(value, n).value) <==> Value(value) == 0.0
    ensures Value(value) == 0.0 ==> Value(Multiply(value, n).value) == 0.0
  {
    hide Coefficient, IsDecimal, Format, Denotes;
    var c, k := Coefficient(value), |Fraction(value)|;
    if c == 0 {
      DenotesZero(k);
      assert c * n == 0;
      ParseFormat(0, k);
      PartsValue(Format(0, k), 0, k);
    } else {
      DenotesPositive(c, k);
      assert c * n < 0;
      NegativeIsNoDecimal(c * n, k);
    }
  }

  lemma {:induction false} DenotesPositive(c: int, k: nat)
    requires c > 0
    ensures Denotes(c, k) > 0.0
  {
    if k > 0 {
      DenotesPositive(c, k - 1);
    }
  }

  /******* Addition is commutative and associative on the strings themselves *******/

  lemma SameParts(a: string, b: string)
    requires IsDecimal(a) && IsDecimal(b)
    requires Coefficient(a) == Coefficient(b) && |Fraction(a)| == |Fraction(b)|
    ensures a == b
  {
    FormatParse(a);
    FormatParse(b);
  }

  lemma AddCommutes(a: string, b: string)
    ensures Add(a, b) == Add(b, a)
  {
    if IsDecimal(a) && IsDecimal(b) {
      AddShape(a, b);
      AddShape(b, a);
      SameParts(Add(a, b).value, Add(b, a).value);
    }
  }

  lemma {:induction false} ScaledSum(x: string, a: string, b: string, k: nat)
    requires IsSum(x, a, b) && k >= |Fraction(x)|
    ensures Scaled(x, k) == Scaled(a, k) + Scaled(b, k)
  {
    hide Coefficient, IsDecimal;
    ShiftedSum(Coefficient(a), |Fraction(a)|, Coefficient(b), |Fraction(b)|, CommonScale(a, b), k);
  }

  lemma SumsAssociate(x: string, y: string, ab: string, bc: string, a: string, b: string, c: string)
    requires IsSum(ab, a, b) && IsSum(bc, b, c) && IsSum(x, ab, c) && IsSum(y, a, bc)
    ensures x == y
  {
    hide Coefficient, IsDecimal, Shift;
    var k := MaxNat(CommonScale(a, b), |Fraction(c)|);
    ScaledSum(ab, a, b, k);
    ScaledSum(bc, b, c, k);
    SameParts(x, y);
  }

  lemma AddAssociates(a: string, b: string, c: string)
    requires IsDecimal(a) && IsDecimal(b) && IsDecimal(c)
    ensures Add(a, b).Returned? && Add(b, c).Returned?
    ensures Add(Add(a, b).value, c) == Add(a, Add(b, c).value)
  {
    AddShape(a, b);
    AddShape(b, c);
    var ab, bc := Add(a, b).value, Add(b, c).value;
    AddShape(ab, c);
    AddShape(a, bc);
    SumsAssociate(Add(ab, c).value, Add(a, bc).value, ab, bc, a, b, c);
  }

  /******* The digit-string form agrees with the aligned form *******/

  lemma {:induction false} TrailingZeros(s: string, n: nat)
    requires AllDigits(s)
    ensures AllDigits(s + Zeros(n)) && DigitsValue(s + Zeros(n)) == DigitsValue(s) * Pow10(n)
  {
    SplitValue(s, Zeros(n));
    LeadingZeros(n, "");
    assert Zeros(n) + "" == Zeros(n);
  }

  /** The scaled coefficient is the whole part and the padded fraction side by side. */
  lemma ScaledSplits(s: string, k: nat)
    requires IsDecimal(s) && k >= |Fraction(s)|
    ensures AllDigits(PadEnd(Fraction(s), k)) && |PadEnd(Fraction(s), k)| == k
    ensures Scaled(s, k) == DigitsValue(Whole(s)) * Pow10(k) + DigitsValue(PadEnd(Fraction(s), k))
    ensures DigitsValue(PadEnd(Fraction(s), k)) < Pow10(k)
  {
    hide DigitsValue, Pow10, Shift;
    var w, f := Whole(s), Fraction(s);
    var padding := Zeros(k - |f|);
    TrailingZeros(w + f, k - |f|);
    ShiftIsProduct(Coefficient(s), k - |f|);
    assert PadEnd(f, k) == f + padding;
    assert (w + f) + padding == w + (f + padding);
    SplitValue(w, f + padding);
    DigitsBound(f + padding);
  }

  lemma {:induction false} LexIsNumeric(a: string, b: string)
    requires AllDigits(a) && AllDigits(b) && |a| == |b|
    ensures LexLess(a, b) <==> DigitsValue(a) < DigitsValue(b)
    ensures a == b <==> DigitsValue(a) == DigitsValue(b)
  {
    if a != "" {
      var n := Pow10(|a| - 1);
      LexIsNumeric(a[1..], b[1..]);
      HeadValue(a);
      HeadValue(b);
      HeadDecides(DigitValue(a[0]), DigitsValue(a[1..]), DigitValue(b[0]), DigitsValue(b[1..]), n);
      assert a == [a[0]] + a[1..] && b == [b[0]] + b[1..];
    }
  }

  lemma HeadValue(s: string)
    requires AllDigits(s) && s != ""
    ensures DigitsValue(s) == DigitValue(s[0]) * Pow10(|s| - 1) + DigitsValue(s[1..])
    ensures DigitsValue(s[1..]) < Pow10(|s| - 1)
  {
    assert s == s[..1] + s[1..];
    SplitValue(s[..1], s[1..]);
    assert DigitsValue(s[..1]) == DigitValue(s[0]) by { assert s[..1][..0] == ""; }
    DigitsBound(s[1..]);
  }

  /** With remainders below the base, the leading digit decides unless it ties. */
  lemma HeadDecides(x: nat, r: nat, y: nat, t: nat, n: nat)
    requires r < n && t < n
    ensures x < y ==> x * n + r < y * n + t
    ensures y < x ==> y * n + t < x * n + r
  {
    if x < y {
      assert (x + 1) * n <= y * n;
    } else if y < x {
      assert (y + 1) * n <= x * n;
    }
  }

  lemma WholeLengthDecides(a: string, b: string)
    requires IsWhole(a) && IsWhole(b) && |a| < |b|
    ensures DigitsValue(a) < DigitsValue(b)
  {
    DigitsBound(a);
    WholeLowerBound(b);
    Pow10Monotone(|a|, |b| - 1);
  }

  /** Both comparators give the same sign on every pair of decimals, and fail on the same strings. */
  lemma ComparatorsAgree(left: string, right: string)
    ensures CompareDigits(left, right).Some? <==> Compare(left, right).Returned?
    ensures CompareDigits(left, right).Some? ==> CompareDigits(left, right).value == Compare(left, right).value
  {
    if IsDecimal(left) && IsDecimal(right) {
      var k := CommonScale(left, right);
      AlignedScaled(left, right);
      ScaledSplits(left, k);
      ScaledSplits(right, k);
      var lw, rw := Whole(left), Whole(right);
      var lf, rf := PadEnd(Fraction(left), k), PadEnd(Fraction(right), k);
      HeadDecides(DigitsValue(lw), DigitsValue(lf), DigitsValue(rw), DigitsValue(rf), Pow10(k));
      if |lw| < |rw| {
        WholeLengthDecides(lw, rw);
      } else if |lw| > |rw| {
        WholeLengthDecides(rw, lw);
      } else {
        LexIsNumeric(lw, rw);
        LexIsNumeric(rw, lw);
        LexIsNumeric(lf, rf);
        LexIsNumeric(rf, lf);
      }
    }
  }

  /** Both multiplications print the same string for every non-negative safe integer. */
  lemma {:induction false} MultiplicationsAgree(value: string, n: int)
    requires 0 <= n <= MAX_SAFE_INTEGER
    ensures IsDecimal(value) ==> Multiply(value, n) == Returned(MultiplyDigits(value, n))
    ensures !IsDecimal(value) ==> Multiply(value, n) == Threw && MultiplyDigits(value, n) == "invalid"
  {
    hide Coefficient, IsDecimal, PadStart;
    if IsDecimal(value) {
      NonNegativeProduct(Coefficient(value), n);
    }
  }

  /******* Integers as decimals *******/

  /** A printed integer is a decimal exactly when it is not negative, and denotes itself. */
  lemma IntegerMeaning(n: int)
    ensures IsDecimal(IntToString(n)) <==> n >= 0
    ensures n >= 0 ==> Value(IntToString(n)) == n as real
  {
    if n >= 0 {
      ParsePrinted(n);
      PartsValue(NatToString(n), n, 0);
    } else {
      var s := IntToString(n);
      assert s[0] == '-';
      assert DotAt(s) > 0;
    }
  }

  /******* What decimal strings are and denote, digit by digit *******/

  predicate OnlyDigits(s: string) {
    forall i :: 0 <= i < |s| ==> s[i] in "0123456789"
  }

  lemma DigitsOnly(s: string)
    ensures OnlyDigits(s) <==> AllDigits(s)
  {
    forall i | 0 <= i < |s|
      ensures s[i] in "0123456789" <==> IsDigit(s[i])
    {
      DigitListed(s[i]);
    }
  }

  lemma DigitListed(c: char)
    ensures c in "0123456789" <==> IsDigit(c)
  {
    if IsDigit(c) {
      assert "0123456789"[c as int - '0' as int] == c;
    }
  }

  /** The whole part is not empty and has no leading zero, unless it is zero; a dot is followed by digits. */
  predicate Written(s: string, whole: string, fraction: string) {
    && whole != "" && OnlyDigits(whole) && (whole[0] == '0' ==> whole == "0")
    && OnlyDigits(fraction) && s == if fraction == "" then whole else whole + "." + fraction
  }

  /** A string is a decimal exactly when it is written that way. */
  lemma DecimalSyntax(s: string)
    ensures IsDecimal(s) <==> exists whole, fraction :: Written(s, whole, fraction)
  {
    if IsDecimal(s) {
      IsWritten(s);
    }
    forall whole, fraction | Written(s, whole, fraction)
      ensures IsDecimal(s)
    {
      DigitsOnly(whole);
      DigitsOnly(fraction);
      WrittenParts(s, whole, fraction);
    }
  }

  lemma WrittenParts(s: string, whole: string, fraction: string)
    requires Written(s, whole, fraction)
    ensures Whole(s) == whole && Fraction(s) == fraction && (DotAt(s) < |s| <==> fraction != "")
  {
    DigitsOnly(whole);
    if fraction == "" {
      NoDot(s);
    } else {
      DotBetween(whole, fraction);
    }
  }

  /** 10^-k */
  function Tenths(k: nat): real {
    if k == 0 then 1.0 else Tenths(k - 1) / 10.0
  }

  /** A digit in the `k`th place after the dot. */
  function Place(digit: int, k: nat): real {
    digit as real * Tenths(k)
  }

  lemma {:induction false} DenotesTenths(d: nat, k: nat)
    ensures Denotes(d, k) == Place(d, k)
  {
    if k > 0 {
      DenotesTenths(d, k - 1);
    }
  }

  lemma PushDigit(t: string, c: char)
    requires AllDigits(t) && IsDigit(c)
    ensures AllDigits(t + [c]) && DigitsValue(t + [c]) == 10 * DigitsValue(t) + (c as int - '0' as int)
  {
    assert (t + [c])[..|t|] == t;
  }

  /** One digit denotes itself; a digit after a whole number that is not zero counts tenfold the rest plus itself. */
  lemma WholeMeaning(w: string, c: char)
    requires IsDigit(c) && OnlyDigits(w) && (w == "" || (IsDecimal(w) && w != "0"))
    ensures IsDecimal(w + [c])
    ensures Value(w + [c]) == (if w == "" then 0.0 else 10.0 * Value(w)) + (c as int - '0' as int) as real
  {
    var s := w + [c];
    DigitListed(c);
    DigitsOnly(w);
    if w != "" {
      NoDot(w);
      assert w[0] != '0' by { assert Whole(w) == w; }
    }
    assert OnlyDigits(s);
    assert Written(s, s, "");
    DecimalSyntax(s);
    WrittenParts(s, s, "");
    assert s + "" == s && w + "" == w;
    PushDigit(w, c);
  }

  /** A further digit after the dot adds itself in its place. */
  lemma FractionMeaning(s: string, c: char)
    requires IsDecimal(s) && IsDigit(c)
    ensures var longer := if DotAt(s) < |s| then s + [c] else s + "." + [c];
            IsDecimal(longer) &&
            Value(longer) == Value(s) + Place(c as int - '0' as int, |Fraction(s)| + 1)
  {
    var longer := if DotAt(s) < |s| then s + [c] else s + "." + [c];
    hide IsDecimal, Coefficient, DotAt, Fraction, Value, Place;
    LongerCoefficient(s, c);
    LongerValue(s, longer, c as int - '0' as int);
  }

  lemma LongerValue(s: string, longer: string, d: nat)
    requires IsDecimal(s) && IsDecimal(longer) && |Fraction(longer)| == |Fraction(s)| + 1
    requires Coefficient(longer) == 10 * Coefficient(s) + d
    ensures Value(longer) == Value(s) + Place(d, |Fraction(s)| + 1)
  {
    hide IsDecimal, Coefficient, Fraction, Denotes, Place;
    PlaceValue(Coefficient(s), d, |Fraction(s)|);
  }

  lemma LongerCoefficient(s: string, c: char)
    requires IsDecimal(s) && IsDigit(c)
    ensures var longer := if DotAt(s) < |s| then s + [c] else s + "." + [c];
            && IsDecimal(longer) && |Fraction(longer)| == |Fraction(s)| + 1
            && Coefficient(longer) == 10 * Coefficient(s) + (c as int - '0' as int)
  {
    hide IsDecimal, DotAt, Whole, Fraction, DigitsValue, AllDigits, IsDigit;
    var w, f := Whole(s), Fraction(s);
    LongerParts(s, c);
    assert w + (f + [c]) == (w + f) + [c];
    PushDigit(w + f, c);
  }

  lemma DigitsJoin(a: string, b: string)
    requires AllDigits(a) && AllDigits(b)
    ensures AllDigits(a + b)
  {
  }

  lemma NoLeadingZero(w: string)
    requires IsWhole(w)
    ensures w != "" && AllDigits(w) && (w[0] == '0' ==> w == "0")
  {
    if w[0] == '0' {
      assert |w| == 1;
    }
  }

  lemma DotSplits(s: string)
    ensures s == if DotAt(s) < |s| then Whole(s) + "." + Fraction(s) else Whole(s)
    ensures DotAt(s) == |s| ==> Fraction(s) == ""
  {
    hide DotAt;
    if DotAt(s) < |s| {
      SplitAt(s, DotAt(s));
      assert [s[DotAt(s)]] == ".";
    }
  }

  lemma SplitAt(s: string, n: nat)
    requires n < |s|
    ensures s == s[..n] + [s[n]] + s[n + 1..]
  {
  }

  lemma IsWritten(s: string)
    requires IsDecimal(s)
    ensures Written(s, Whole(s), Fraction(s)) && (DotAt(s) < |s| <==> Fraction(s) != "")
    ensures AllDigits(Whole(s) + Fraction(s))
  {
    hide Whole, Fraction, DotAt, IsWhole, OnlyDigits, AllDigits;
    DotSplits(s);
    NoLeadingZero(Whole(s));
    assert AllDigits("") by { NoDigits(); }
    DigitsOnly(Whole(s));
    DigitsOnly(Fraction(s));
    DigitsJoin(Whole(s), Fraction(s));
  }

  lemma NoDigits()
    ensures AllDigits("")
  {
  }

  lemma WrittenLonger(s: string, w: string, f: string, c: char)
    requires Written(s, w, f) && c in "0123456789"
    ensures Written(if f == "" then s + "." + [c] else s + [c], w, f + [c])
  {
    var longer := if f == "" then s + "." + [c] else s + [c];
    assert longer == w + "." + (f + [c]);
    assert OnlyDigits(f + [c]);
  }

  lemma LongerParts(s: string, c: char)
    requires IsDecimal(s) && IsDigit(c)
    ensures var longer := if DotAt(s) < |s| then s + [c] else s + "." + [c];
            IsDecimal(longer) && Whole(longer) == Whole(s) && Fraction(longer) == Fraction(s) + [c]
    ensures AllDigits(Whole(s) + Fraction(s))
  {
    var longer := if DotAt(s) < |s| then s + [c] else s + "." + [c];
    hide IsDecimal, Written, DotAt, Whole, Fraction, AllDigits, IsDigit;
    DigitListed(c);
    IsWritten(s);
    WrittenLonger(s, Whole(s), Fraction(s), c);
    DecimalSyntax(longer);
    WrittenParts(longer, Whole(s), Fraction(s) + [c]);
  }

  lemma PlaceValue(c: int, d: nat, k: nat)
    ensures Denotes(10 * c + d, k + 1) == Denotes(c, k) + Place(d, k + 1)
  {
    DenotesSum(10 * c, d, k + 1);
    DenotesTenfold(c, k + 1);
    DenotesTenths(d, k + 1);
    assert Denotes(c, k + 1) == Denotes(c, k) / 10.0;
    hide Denotes, Place;
  }
}
