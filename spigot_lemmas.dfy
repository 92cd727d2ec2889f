/** Properties of the outer loop of the digit generator: what every state it
    goes through satisfies, that committed digits are only ever appended, when
    the loop stops, and the shape of the returned string. */
module SpigotLemmas {
  import opened CppInt
  import opened Spigot

  /** Every state vector the loop reaches keeps each entry within its radix. */
  lemma {:induction false} AfterRadixBounded(n: int, j: nat)
    requires n > 0
    ensures RadixBounded(After(n, j).a)
    decreases j
  {
    if j > 0 {
      AfterRadixBounded(n, j - 1);
      PassBounds(After(n, j - 1).a);
    }
  }

  /** The candidate digit of every iteration, once clamped, lies in 0 .. 10. */
  lemma CandidateInRange(n: int, j: nat)
    requires n > 0
    ensures 0 <= Clamp(Candidate(After(n, j).a)) <= 10
  {
    AfterRadixBounded(n, j);
    PassBounds(After(n, j).a);
  }

  /** Every buffer the loop reaches satisfies BufferInv: the pending predigit
      is a decimal digit and every committed entry after the first is one. */
  lemma {:induction false} AfterBufferInv(n: int, j: nat)
    requires n > 0
    ensures BufferInv(After(n, j).buf)
    decreases j
  {
    if j > 0 {
      AfterBufferInv(n, j - 1);
      CandidateInRange(n, j - 1);
      var s := After(n, j - 1);
      StepKeepsInv(s.buf, Clamp(Candidate(s.a)), j - 1 == 0);
    }
  }

  /** Iteration 0 commits nothing and leaves no nine pending. */
  lemma FirstIteration(n: int)
    requires n > 0
    ensures After(n, 1).buf.digits == [] && After(n, 1).buf.nines == 0
  {
  }

  /** One iteration only appends to the committed digits. */
  lemma AfterStepAppends(n: int, j: nat)
    requires n > 0
    ensures After(n, j).buf.digits <= After(n, j + 1).buf.digits
  {
    var s := After(n, j);
    StepAppends(s.buf, Clamp(Candidate(s.a)), j == 0);
  }

  lemma PrefixTransitive(x: seq<int>, y: seq<int>, z: seq<int>)
    requires x <= y && y <= z
    ensures x <= z
  {
    assert z[..|y|][..|x|] == z[..|x|];
  }

  /** Committed digits are append-only: an earlier state's digits are a prefix
      of every later state's. */
  lemma {:induction false} AfterAppendOnly(n: int, j: nat, k: nat)
    requires n > 0 && j <= k
    ensures After(n, j).buf.digits <= After(n, k).buf.digits
    decreases k
  {
    if j < k {
      AfterAppendOnly(n, j, k - 1);
      AfterStepAppends(n, k - 1);
      PrefixTransitive(After(n, j).buf.digits, After(n, k - 1).buf.digits, After(n, k).buf.digits);
    }
  }

  /** The loop's exit test after iteration `j` decides where it stops. */
  lemma StopFromStep(n: int, j: nat)
    requires n > 0 && j < n + 3
    ensures Full(n, j + 1) ==> StopFrom(n, j) == j + 1
    ensures !Full(n, j + 1) ==> StopFrom(n, j) == StopFrom(n, j + 1)
  {
  }

  /** When the loop stops before n + 3 iterations, it is because the committed
      digits reached n + 1 entries. */
  lemma {:induction false} StopFromFull(n: int, j: nat)
    requires n > 0 && j <= n + 3
    ensures StopFrom(n, j) < n + 3 ==> Full(n, StopFrom(n, j))
    decreases n + 3 - j
  {
    if j < n + 3 {
      if Full(n, j + 1) {
        assert StopFrom(n, j) == j + 1;
      } else {
        StopFromFull(n, j + 1);
        assert StopFrom(n, j) == StopFrom(n, j + 1);
      }
    }
  }

  /** No iteration strictly between `j` and the stopping point filled the
      committed digits. */
  lemma {:induction false} StopFromNotFull(n: int, j: nat, i: nat)
    requires n > 0 && j <= n + 3 && j < i < StopFrom(n, j)
    ensures !Full(n, i)
    decreases n + 3 - j
  {
    assert StopFrom(n, j) != j + 1;
    if i > j + 1 {
      assert StopFrom(n, j) == StopFrom(n, j + 1);
      StopFromNotFull(n, j + 1, i);
    }
  }

  /** The loop runs between 1 and n + 3 iterations; it stops at the first
      iteration after which at least n + 1 entries are committed, and only runs
      all n + 3 when no earlier iteration got that far. */
  lemma StopIsFirstFull(n: int)
    requires n > 0
    ensures 1 <= Stop(n) <= n + 3
    ensures forall i :: 0 < i < Stop(n) ==> !Full(n, i)
    ensures Stop(n) < n + 3 ==> |FinalDigits(n)| >= n + 1
  {
    StopFromFull(n, 0);
    forall i | 0 < i < Stop(n)
      ensures !Full(n, i)
    {
      StopFromNotFull(n, 0, i);
    }
  }

  /** When every entry is a decimal digit, ShowAll writes one character per entry. */
  lemma {:induction false} ShowAllDigits(d: seq<int>)
    requires forall i :: 0 <= i < |d| ==> 0 <= d[i] <= 9
    ensures |ShowAll(d)| == |d|
    ensures forall i :: 0 <= i < |d| ==> ShowAll(d)[i] == DigitChar(d[i])
    decreases |d|
  {
    if d != [] {
      ShowAllDigits(d[..|d| - 1]);
      ShowSmall(d[|d| - 1]);
    }
  }

  /** Every committed entry except the first is a decimal digit. */
  lemma FinalDigitsBounded(n: int)
    requires n > 0
    ensures forall i :: 1 <= i < |FinalDigits(n)| ==> 0 <= FinalDigits(n)[i] <= 9
  {
    AfterBufferInv(n, Stop(n));
  }

  /** Formatting entries whose printed part is made of decimal digits gives
      "3." and then one character per printed entry. */
  lemma FormattedShape(n: int, d: seq<int>)
    requires forall i :: 1 <= i < |d| ==> 0 <= d[i] <= 9
    ensures |Formatted(n, d)| == 2 + PrintedCount(n, d) && Formatted(n, d)[..2] == "3."
    ensures forall i :: 2 <= i < |Formatted(n, d)| ==>
              IsDigitChar(Formatted(n, d)[i]) && DigitValue(Formatted(n, d)[i]) == d[i - 1]
  {
    var p := PrintedEntries(n, d);
    ShowAllDigits(p);
    var r := Formatted(n, d);
    forall i | 2 <= i < |r|
      ensures IsDigitChar(r[i]) && DigitValue(r[i]) == d[i - 1]
    {
      assert r[i] == ShowAll(p)[i - 2] == DigitChar(d[i - 1]);
    }
  }

  /** The returned string is "3." followed by one decimal digit per printed
      entry, entry i - 1 of the committed digits at position i; it has at most
      n digits, and exactly n whenever the loop exited early. */
  lemma PiStringShape(n: int)
    ensures |PiString(n)| >= 2 && PiString(n)[..2] == "3."
    ensures n <= 0 ==> PiString(n) == "3."
    ensures n > 0 ==> |PiString(n)| == 2 + PrintedCount(n, FinalDigits(n))
    ensures n > 0 ==> forall i :: 2 <= i < |PiString(n)| ==>
              IsDigitChar(PiString(n)[i]) && DigitValue(PiString(n)[i]) == FinalDigits(n)[i - 1]
    ensures |PiString(n)| <= 2 + (if n > 0 then n else 0)
    ensures n > 0 && Stop(n) < n + 3 ==> |PiString(n)| == n + 2
  {
    if n > 0 {
      var d := FinalDigits(n);
      FinalDigitsBounded(n);
      StopIsFirstFull(n);
      FormattedShape(n, d);
    }
  }
}
