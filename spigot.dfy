/** A value-level specification of `calculatePiDigitsString`: the mixed-radix
    state vector, one normalization pass over it, the nines-buffering step,
    the sequence of states the outer loop goes through, the iteration at
    which it stops, and the string it returns. The imperative code in module
    PiTime is proved to compute exactly these values. */
module Spigot {
  import opened CppInt

  /** Entries pending and committed by the nines-buffering mechanism. */
  datatype Buffer = Buffer(predigit: int, nines: nat, digits: seq<int>)

  /** Everything the outer loop carries from one iteration to the next. */
  datatype State = State(a: seq<int>, buf: Buffer)

  // ---------------------------------------------------------------------
  // State sizing and initial state

  /** Length of the state vector for `n` requested digits: floor(10n/3) + 3. */
  function Len(n: int): (len: int)
    requires n > 0
    ensures len >= 6
  {
    (10 * n) / 3 + 3
  }

  function Init(n: int): (s: State)
    requires n > 0
    ensures |s.a| == Len(n)
  {
    State(seq(Len(n), _ => 2), Buffer(0, 0, []))
  }

  // ---------------------------------------------------------------------
  // The inner normalization pass

  /** The carry leaving index `i` leftwards, once indices `i .. |a|-1` have been
      processed right to left starting from a zero carry. */
  function Carry(a: seq<int>, i: nat): int
    requires 1 <= i <= |a|
    decreases |a| - i
  {
    if i == |a| then 0
    else Quot(10 * a[i] + Carry(a, i + 1), 2 * i + 1) * i
  }

  /** Radix of index `i` in the mixed-radix representation: index 0 holds the
      decimal digit, index i >= 1 an entry modulo 2i+1. */
  function Radix(i: nat): (r: int)
    ensures r >= 3
  {
    if i == 0 then 10 else 2 * i + 1
  }

  /** Entries `i .. |a|-1` after one pass: each keeps the remainder of ten times
      its old value plus the incoming carry, modulo its radix. */
  function PassFrom(a: seq<int>, i: nat): (r: seq<int>)
    requires i <= |a|
    ensures |r| == |a| - i
    decreases |a| - i
  {
    if i == |a| then []
    else [Rem(10 * a[i] + Carry(a, i + 1), Radix(i))] + PassFrom(a, i + 1)
  }

  /** Processing index `i` of a pass over `cur`, the vector with entries
      0 .. i still as in `a` and the rest already passed: with `num` ten times
      entry i plus the carry from the right, the entry becomes num modulo its
      radix, the passed suffix grows by one, and the carry passed on is as
      Carry says. */
  lemma PassStep(a: seq<int>, i: nat, cur: seq<int>, num: int)
    requires i < |a| && cur == a[..i + 1] + PassFrom(a, i + 1)
    requires num == 10 * cur[i] + Carry(a, i + 1)
    ensures cur[i := Rem(num, Radix(i))] == a[..i] + PassFrom(a, i)
    ensures i > 0 ==> Carry(a, i) == Quot(num, 2 * i + 1) * i && Radix(i) == 2 * i + 1
  {
    assert cur[i] == a[i];
    assert PassFrom(a, i) == [Rem(num, Radix(i))] + PassFrom(a, i + 1);
  }

  /** The state vector after one pass. */
  function Passed(a: seq<int>): (r: seq<int>)
    ensures |r| == |a|
  {
    PassFrom(a, 0)
  }

  /** The candidate digit the pass extracts: the tens of the final number. */
  function Candidate(a: seq<int>): int
    requires |a| >= 1
  {
    Quot(10 * a[0] + Carry(a, 1), 10)
  }

  /** A carry-out of 9 is represented by the sentinel 10. */
  function Clamp(q: int): (r: int)
    ensures r <= 10
    ensures q < 10 ==> r == q
    ensures q >= 10 ==> r == 10
  {
    if q >= 10 then 10 else q
  }

  /** Every entry within its radix: a[0] is a decimal digit, a[i] lies in 0 .. 2i. */
  ghost predicate RadixBounded(a: seq<int>) {
    && |a| >= 1
    && forall i :: 0 <= i < |a| ==> 0 <= a[i] < Radix(i)
  }

  ghost predicate NonNegative(a: seq<int>) {
    forall i :: 0 <= i < |a| ==> a[i] >= 0
  }

  /** Starting from non-negative entries, the carry is never negative. */
  lemma {:induction false} CarryNonNegative(a: seq<int>, i: nat)
    requires 1 <= i <= |a|
    requires NonNegative(a)
    ensures Carry(a, i) >= 0
    decreases |a| - i
  {
    if i < |a| {
      CarryNonNegative(a, i + 1);
    }
  }

  /** Over non-negative entries, every entry a pass leaves at index k lies
      in 0 .. Radix(k) - 1. */
  lemma {:induction false} PassFromBounded(a: seq<int>, i: nat)
    requires i <= |a|
    requires NonNegative(a)
    ensures forall k :: 0 <= k < |PassFrom(a, i)| ==> 0 <= PassFrom(a, i)[k] < Radix(i + k)
    decreases |a| - i
  {
    if i < |a| {
      PassFromBounded(a, i + 1);
      CarryNonNegative(a, i + 1);
      assert a[i] >= 0;
      var r := PassFrom(a, i);
      var t := PassFrom(a, i + 1);
      assert r == [Rem(10 * a[i] + Carry(a, i + 1), Radix(i))] + t;
      forall k | 1 <= k < |r|
        ensures 0 <= r[k] < Radix(i + k)
      {
        assert r[k] == t[k - 1] && i + k == (i + 1) + (k - 1);
      }
    }
  }

  /** A pass over non-negative entries leaves every entry within its radix and
      yields a non-negative candidate digit. */
  lemma PassBounds(a: seq<int>)
    requires |a| >= 1 && NonNegative(a)
    ensures RadixBounded(Passed(a))
    ensures Candidate(a) >= 0
  {
    CarryNonNegative(a, 1);
    PassFromBounded(a, 0);
    var r := Passed(a);
    forall k | 0 <= k < |a|
      ensures 0 <= r[k] < Radix(k)
    {
      assert r[k] == PassFrom(a, 0)[k] && k == 0 + k;
    }
  }

  // ---------------------------------------------------------------------
  // Nines buffering

  /** `k` copies of `v`. */
  function Repeat(v: int, k: nat): (r: seq<int>)
    ensures |r| == k
  {
    seq(k, _ => v)
  }

  /** The entries one step appends to the committed digits. */
  function Committed(b: Buffer, q: int, first: bool): (r: seq<int>)
    ensures |r| == if !first && (q < 9 || q == 10) then 1 + b.nines else 0
    ensures 0 <= b.predigit <= 9 ==> forall k :: 0 <= k < |r| ==> 0 <= r[k] <= 10
  {
    if first then []
    else if q < 9 then [b.predigit] + Repeat(9, b.nines)
    else if q == 10 then [b.predigit + 1] + Repeat(0, b.nines)
    else []
  }

  /** One buffering step for candidate digit `q`; `first` is the outer
      iteration j == 0, which only records `q` as the pending predigit. */
  function Step(b: Buffer, q: int, first: bool): (r: Buffer)
    ensures b.digits <= r.digits
    ensures q != 9 && !first ==> r.nines == 0
  {
    var d := b.digits + Committed(b, q, first);
    if q < 9 then Buffer(q, if first then b.nines else 0, d)
    else if q == 9 then
      (if first then Buffer(q, b.nines, d) else Buffer(b.predigit, b.nines + 1, d))
    else Buffer(0, if first then b.nines else 0, d)
  }

  /** What the buffering keeps true: the pending predigit is a decimal digit, it
      is 9 only before anything was committed, and every committed entry after
      the first is a decimal digit (the first is at most 10). */
  ghost predicate BufferInv(b: Buffer) {
    && 0 <= b.predigit <= 9
    && (b.predigit == 9 ==> b.digits == [])
    && (|b.digits| > 0 ==> 0 <= b.digits[0] <= 10)
    && forall i :: 1 <= i < |b.digits| ==> 0 <= b.digits[i] <= 9
  }

  /** A step commits exactly 1 + nines entries when q < 9 or q == 10 (after the
      first iteration) and nothing otherwise, and never alters what was already
      committed. */
  lemma StepAppends(b: Buffer, q: int, first: bool)
    ensures b.digits <= Step(b, q, first).digits
    ensures |Step(b, q, first).digits| - |b.digits|
            == if !first && (q < 9 || q == 10) then 1 + b.nines else 0
  {
  }

  /** A step fed a clamped, non-negative candidate keeps BufferInv, provided the
      first iteration starts with nothing committed. */
  lemma StepKeepsInv(b: Buffer, q: int, first: bool)
    requires BufferInv(b)
    requires 0 <= q <= 10
    requires first ==> b.digits == []
    ensures BufferInv(Step(b, q, first))
  {
    var b' := Step(b, q, first);
    var c := Committed(b, q, first);
    if c != [] {
      assert b.predigit == 9 ==> |b.digits| == 0;
      forall i | 1 <= i < |b'.digits|
        ensures 0 <= b'.digits[i] <= 9
      {
        if i >= |b.digits| + 1 {
          assert b'.digits[i] == c[i - |b.digits|];
        }
      }
    }
  }

  // ---------------------------------------------------------------------
  // The outer loop

  /** The state after `j` outer iterations, had none of them exited early. */
  function After(n: int, j: nat): (s: State)
    requires n > 0
    ensures |s.a| == Len(n)
    decreases j, 0
  {
    if j == 0 then Init(n) else Iterate(n, j - 1)
  }

  /** Outer iteration `j`: a pass, the clamp, and a buffering step applied to
      the state after `j` iterations. */
  function Iterate(n: int, j: nat): (r: State)
    requires n > 0
    ensures |r.a| == Len(n)
    decreases j, 1
  {
    var s := After(n, j);
    State(Passed(s.a), Step(s.buf, Clamp(Candidate(s.a)), j == 0))
  }

  /** After `j` iterations at least n + 1 entries are committed: the loop's
      exit condition. */
  predicate Full(n: int, j: nat)
    requires n > 0
  {
    |After(n, j).buf.digits| >= n + 1
  }

  /** Number of iterations the loop runs once `j` of them are done without
      the committed digits reaching n + 1 entries: at least one more, and
      never more than n + 3 in all. */
  function StopFrom(n: int, j: nat): (k: nat)
    requires n > 0 && j <= n + 3
    ensures j <= k <= n + 3
    ensures j < n + 3 ==> j < k
    decreases n + 3 - j
  {
    if j == n + 3 then n + 3
    else if Full(n, j + 1) then j + 1
    else StopFrom(n, j + 1)
  }

  /** Number of outer iterations `calculatePiDigitsString(n)` runs. */
  function Stop(n: int): (k: nat)
    requires n > 0
    ensures 1 <= k <= n + 3
  {
    StopFrom(n, 0)
  }

  /** Committed digits when the loop ends. */
  function FinalDigits(n: int): seq<int>
    requires n > 0
  {
    After(n, Stop(n)).buf.digits
  }

  // ---------------------------------------------------------------------
  // Output formatting

  /** Number of committed entries printed: min(n, size - 1), and none when empty. */
  function PrintedCount(n: int, d: seq<int>): (k: nat)
    ensures k <= |d|
    ensures k == 0 || k + 1 <= |d|
  {
    var available := if |d| > 0 then |d| - 1 else 0;
    var m := if n < available then n else available;
    if m < 0 then 0 else m
  }

  /** The entries of `d` written one after the other. */
  function ShowAll(d: seq<int>): (r: string)
    ensures |r| >= |d|
  {
    if d == [] then [] else ShowAll(d[..|d| - 1]) + Show(d[|d| - 1])
  }

  /** Writing one more entry extends the text written so far. */
  lemma FormatStep(p: seq<int>, i: nat, x: int)
    requires i < |p| && p[i] == x
    ensures "3." + ShowAll(p[..i]) + Show(x) == "3." + ShowAll(p[..i + 1])
  {
    assert p[..i + 1][..i] == p[..i];
  }

  /** The committed entries that get printed: those at 1 .. PrintedCount(n, d);
      entry 0 never is. */
  function PrintedEntries(n: int, d: seq<int>): (p: seq<int>)
    ensures |p| == PrintedCount(n, d)
    ensures forall i :: 0 <= i < |p| ==> p[i] == d[i + 1]
  {
    if PrintedCount(n, d) == 0 then [] else d[1..1 + PrintedCount(n, d)]
  }

  function Formatted(n: int, d: seq<int>): (r: string)
    ensures |r| >= 2 && r[..2] == "3."
  {
    "3." + ShowAll(PrintedEntries(n, d))
  }

  /** The string `calculatePiDigitsString(n)` returns. */
  function PiString(n: int): (r: string)
    ensures |r| >= 2 && r[..2] == "3."
  {
    if n <= 0 then "3." else Formatted(n, FinalDigits(n))
  }
}
