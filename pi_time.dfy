/** The imperative digit generator `calculatePiDigitsString`: the state vector
    is an array updated in place, the committed digits a sequence that only
    grows, and each piece is proved to compute what module Spigot specifies. */
module PiTime {
  import opened CppInt
  import opened Spigot
  import opened SpigotLemmas

  /** The inner pass: multiplies the mixed-radix number held in `a` by 10,
      sweeping right to left and carrying (num / (2i+1)) * i leftwards, then
      splits the final number at index 0 into the candidate digit `q` (tens)
      and the new a[0] (units). Over non-negative entries it leaves every entry
      within its radix and `q` non-negative. */
  method NormalizePass(a: array<int>) returns (q: int)
    requires a.Length >= 1
    modifies a
    ensures a[..] == Passed(old(a[..]))
    ensures q == Candidate(old(a[..]))
    ensures NonNegative(old(a[..])) ==> RadixBounded(a[..]) && q >= 0
  {
    ghost var s := a[..];
    var len := a.Length;
    var carry := 0;
    var i := len - 1;
    while i > 0
      invariant 0 <= i < len
      invariant carry == Carry(s, i + 1)
      invariant a[..] == s[..i + 1] + PassFrom(s, i + 1)
    {
      var num := a[i] * 10 + carry;
      PassStep(s, i, a[..], num);
      a[i] := Rem(num, 2 * i + 1);
      carry := Quot(num, 2 * i + 1) * i;
      i := i - 1;
    }
    var finalNum := a[0] * 10 + carry;
    PassStep(s, 0, a[..], finalNum);
    q := Quot(finalNum, 10);
    a[0] := Rem(finalNum, 10);
    if NonNegative(s) {
      PassBounds(s);
    }
  }

  /** One buffering step of outer iteration `j` for candidate digit `q`:
      after iteration 0, q < 9 commits predigit and then `nines` nines, q == 10
      commits predigit + 1 and then `nines` zeros, q == 9 only counts one more
      pending nine; iteration 0 commits nothing and records q as predigit. */
  method BufferStep(predigit: int, nines: nat, digits: seq<int>, q: int, j: nat)
    returns (predigit': int, nines': nat, digits': seq<int>)
    ensures Buffer(predigit', nines', digits') == Step(Buffer(predigit, nines, digits), q, j == 0)
    ensures j > 0 && q < 9 ==>
              digits' == digits + [predigit] + Repeat(9, nines) && predigit' == q && nines' == 0
    ensures j > 0 && q == 10 ==>
              digits' == digits + [predigit + 1] + Repeat(0, nines) && predigit' == 0 && nines' == 0
    ensures j > 0 && q == 9 ==>
              digits' == digits && predigit' == predigit && nines' == nines + 1
    ensures j == 0 ==>
              digits' == digits && nines' == nines && predigit' == (if q <= 9 then q else 0)
  {
    predigit', nines', digits' := predigit, nines, digits;
    if j > 0 {
      if q < 9 {
        digits' := digits' + [predigit];
        for k := 0 to nines
          invariant digits' == digits + [predigit] + Repeat(9, k)
        {
          digits' := digits' + [9];
        }
      } else if q == 10 {
        digits' := digits' + [predigit + 1];
        for k := 0 to nines
          invariant digits' == digits + [predigit + 1] + Repeat(0, k)
        {
          digits' := digits' + [0];
        }
      }
    }
    if q < 9 {
      predigit' := q;
      if j > 0 { nines' := 0; }
    } else if q == 9 {
      if j > 0 { nines' := nines' + 1; } else { predigit' := q; }
    } else {
      predigit' := 0;
      if j > 0 { nines' := 0; }
    }
  }

  /** One outer iteration `j` (the body of the `j` loop): the inner pass, the
      clamp of the candidate digit to 10, and the buffering step, taking the
      state reached after `j` iterations for `n` digits to the state after j + 1. */
  method OuterIteration(ghost n: int, a: array<int>, predigit: int, nines: nat, digits: seq<int>, j: nat)
    returns (predigit': int, nines': nat, digits': seq<int>)
    requires n > 0 && State(a[..], Buffer(predigit, nines, digits)) == After(n, j)
    modifies a
    ensures State(a[..], Buffer(predigit', nines', digits')) == After(n, j + 1)
  {
    var q := NormalizePass(a);
    if q >= 10 {
      q := 10;
    }
    predigit', nines', digits' := BufferStep(predigit, nines, digits, q, j);
  }

  /** Writes "3." and then committed entries 1 .. min(n, size - 1), one after
      the other in decimal; entry 0 is skipped. */
  method FormatDigits(n: int, digits: seq<int>) returns (r: string)
    ensures r == Formatted(n, digits)
  {
    r := "3.";
    var available := if |digits| > 0 then |digits| - 1 else 0;
    var toPrint := if n < available then n else available;
    ghost var p := PrintedEntries(n, digits);
    assert |p| == if toPrint < 0 then 0 else toPrint;
    var i := 0;
    while i < toPrint
      invariant 0 <= i <= |p|
      invariant r == "3." + ShowAll(p[..i])
    {
      FormatStep(p, i, digits[i + 1]);
      r := r + Show(digits[i + 1]);
      i := i + 1;
    }
    assert p[..i] == p;
  }

  /** Allocates the state vector for `n` digits, every entry 2. */
  method NewStateVector(n: int) returns (a: array<int>)
    requires n > 0
    ensures fresh(a) && a[..] == Init(n).a
  {
    var len := (10 * n) / 3 + 3;
    a := new int[len];
    for i := 0 to len
      invariant forall k :: 0 <= k < i ==> a[k] == 2
    {
      a[i] := 2;
    }
    assert a[..] == Init(n).a;
  }

  /** The outer loop: at most n + 3 iterations over the state vector `a`,
      leaving once n + 1 entries are committed; returns the committed entries. */
  method GenerateDigits(n: int, a: array<int>) returns (digits: seq<int>)
    requires n > 0 && a[..] == Init(n).a
    modifies a
    ensures digits == FinalDigits(n)
    ensures a[..] == After(n, Stop(n)).a
  {
    digits := [];
    var nines: nat := 0;
    var predigit := 0;
    var j := 0;
    while j < n + 3
      invariant 0 <= j <= n + 3
      invariant State(a[..], Buffer(predigit, nines, digits)) == After(n, j)
      invariant StopFrom(n, j) == Stop(n)
    {
      predigit, nines, digits := OuterIteration(n, a, predigit, nines, digits, j);
      StopFromStep(n, j);
      j := j + 1;
      if |digits| >= n + 1 {
        break;
      }
    }
  }

  /** `calculatePiDigitsString(n)`: "3." for n <= 0; otherwise the state vector
      of floor(10n/3) + 3 twos, the outer loop, and the formatting of the
      committed entries. */
  method CalculatePiDigitsString(n: int) returns (r: string)
    ensures r == PiString(n)
    ensures |r| >= 2 && r[..2] == "3."
    ensures |r| <= 2 + (if n > 0 then n else 0)
    ensures forall i :: 2 <= i < |r| ==> IsDigitChar(r[i])
  {
    if n <= 0 {
      return "3.";
    }
    var a := NewStateVector(n);
    var digits := GenerateDigits(n, a);
    r := FormatDigits(n, digits);
    PiStringShape(n);
  }
}
