/** The two pieces of C++ integer semantics the digit generator relies on:
    `/` and `%` on signed integers (which truncate toward zero, unlike
    Dafny's Euclidean operators), and how `operator<<` writes an `int`
    in decimal. */
module CppInt {

  /** C++ `x / d` for a positive divisor: the quotient truncated toward zero. */
  function Quot(x: int, d: int): (r: int)
    requires d > 0
    ensures x >= 0 ==> r >= 0
    ensures x < 0 ==> r <= 0
  {
    if x >= 0 then x / d else -((-x) / d)
  }

  /** C++ `x % d` for a positive divisor: the remainder takes the sign of `x`. */
  function Rem(x: int, d: int): (r: int)
    requires d > 0
    ensures x >= 0 ==> 0 <= r < d
    ensures x < 0 ==> -d < r <= 0
  {
    if x >= 0 then x % d else -((-x) % d)
  }

  /** Quotient and remainder split `x` exactly, as C++ requires of `/` and `%`. */
  lemma QuotRemDivision(x: int, d: int)
    requires d > 0
    ensures x == Quot(x, d) * d + Rem(x, d)
    ensures x >= 0 ==> Quot(x, d) * d <= x < Quot(x, d) * d + d
    ensures x < 0 ==> Quot(x, d) * d - d < x <= Quot(x, d) * d
  {
  }

  /** On non-negative operands C++ and Dafny division agree. */
  lemma QuotRemNonNegative(x: int, d: int)
    requires x >= 0 && d > 0
    ensures Quot(x, d) == x / d && Rem(x, d) == x % d
  {
  }

  predicate IsDigitChar(c: char) {
    '0' <= c <= '9'
  }

  function DigitChar(v: int): (c: char)
    requires 0 <= v <= 9
    ensures IsDigitChar(c) && c as int - '0' as int == v
  {
    ('0' as int + v) as char
  }

  function DigitValue(c: char): (v: nat)
    requires IsDigitChar(c)
    ensures v <= 9
  {
    c as int - '0' as int
  }

  /** Decimal text of a non-negative integer, most significant digit first. */
  function ShowNat(v: nat): string
    decreases v
  {
    if v < 10 then [DigitChar(v)] else ShowNat(v / 10) + [DigitChar(v % 10)]
  }

  /** What `stream << v` writes for an `int` value `v`. */
  function Show(v: int): (r: string)
    ensures v >= 0 ==> IsDecimal(r)
    ensures v < 0 ==> |r| >= 2 && r[0] == '-' && IsDecimal(r[1..])
  {
    if v < 0 then
      ShowNatIsDecimal(-v);
      "-" + ShowNat(-v)
    else
      ShowNatIsDecimal(v);
      ShowNat(v)
  }

  predicate IsDecimal(s: string) {
    |s| >= 1 && forall i :: 0 <= i < |s| ==> IsDigitChar(s[i])
  }

  /** ShowNat writes a non-empty run of decimal digits without a leading zero,
      one character exactly for the values 0 .. 9. */
  lemma {:induction false} ShowNatIsDecimal(v: nat)
    ensures IsDecimal(ShowNat(v))
    ensures |ShowNat(v)| == 1 <==> v <= 9
    ensures |ShowNat(v)| > 1 ==> ShowNat(v)[0] != '0'
    decreases v
  {
    if v >= 10 {
      ShowNatIsDecimal(v / 10);
    }
  }

  /** A single decimal digit is written as one character; a negative value
      is written as a minus sign followed by its magnitude. */
  lemma ShowSmall(v: int)
    ensures 0 <= v <= 9 ==> Show(v) == [DigitChar(v)]
    ensures v < 0 ==> Show(v)[0] == '-' && Show(v)[1..] == ShowNat(-v)
  {
  }

  /** The value a string of decimal digits denotes: the reference reading of ShowNat. */
  function DecimalValue(s: string): (v: nat)
    requires forall i :: 0 <= i < |s| ==> IsDigitChar(s[i])
  {
    if s == [] then 0
    else DecimalValue(s[..|s| - 1]) * 10 + DigitValue(s[|s| - 1])
  }

  /** Reading back what ShowNat writes gives the number written. */
  lemma {:induction false} ShowNatRoundTrip(v: nat)
    ensures IsDecimal(ShowNat(v)) && DecimalValue(ShowNat(v)) == v
    decreases v
  {
    ShowNatIsDecimal(v);
    if v >= 10 {
      var s := ShowNat(v / 10);
      var t := ShowNat(v);
      assert t == s + [DigitChar(v % 10)];
      assert t[..|t| - 1] == s;
      ShowNatRoundTrip(v / 10);
    }
  }
}
