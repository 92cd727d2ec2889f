# Rabinowitz–Wagon π spigot (`calculatePiDigitsString`)

This project models `calculatePiDigitsString(n)` from `PiTime.cpp` in Dafny and proves
properties of the model. The function computes the first `n` decimal digits of π with the
Rabinowitz–Wagon spigot:

- **State vector.** A mixed-radix number of `floor(10n/3) + 3` entries, all initialised to 2.
  Entry `i` has radix `2i + 1`.
- **Outer iterations.** At most `n + 3` of them. Each one does three things:
  - A right-to-left normalisation pass multiplies every entry by 10 and carries
    `(num / (2i+1)) * i` leftwards. The tens of the final number become the candidate digit `q`.
  - `q` is clamped to 10. The value 10 stands for "a carry out of a 9".
  - The nines-buffering step commits the pending predigit and any pending nines. When `q == 10`
    it commits the predigit plus one and turns the pending nines into zeros.
- **Early exit.** The loop stops as soon as at least `n + 1` entries are committed.
- **Result.** `"3."` followed by committed entries `1 .. min(n, size - 1)`. Entry 0 is the anchor
  and is never printed.

The project has four modules:

- **`CppInt`** (`cpp_int.dfy`) holds the C++ integer semantics the routine relies on:
  - `/` truncates toward zero and `%` takes the sign of the dividend, unlike Dafny's Euclidean
    operators.
  - `stream << int` writes the decimal text of an `int`. A round-trip lemma says that text reads
    back as the same number.
- **`Spigot`** (`spigot.dfy`) is the value-level specification. It gives:
  - the carry of the pass (`Carry`), the vector after a pass (`PassFrom`, `Passed`) and the
    candidate digit (`Candidate`);
  - the buffering step (`Step`);
  - the state after `j` outer iterations (`After`, `Iterate`);
  - the iteration at which the loop stops (`StopFrom`, `Stop`);
  - the returned string (`PiString`).
- **`SpigotLemmas`** (`spigot_lemmas.dfy`) proves what holds of every state the loop reaches:
  - entries stay within their radix and the candidate lies in 0 .. 10;
  - the buffer invariant holds, committed entries are only ever appended, and where the loop stops;
  - the shape of the returned string.
- **`PiTime`** (`pi_time.dfy`) is the imperative routine:
  - the inner pass over an `array<int>`, updated in place;
  - the buffering step with its `push_back` loops, and one outer iteration;
  - allocation of the state vector, the outer loop, the formatting loop, and the entry point.

  Each method is proved to compute exactly the corresponding `Spigot` function. The entry point
  is proved to return `PiString(n)`.

One fact about the buffering is not obvious and is proved here. A committed value of 10
(`predigit + 1` with `predigit == 9`) can only land at index 0, which is never printed. The reason
is that the pending predigit is 9 only while nothing has been committed (`BufferInv`). So every
printed entry is a single decimal digit, and the result is `"3."` followed by exactly
`min(n, size - 1)` decimal digits. The comment at PiTime.cpp:78-79 calls the committed entries the
computed decimal digits, but the code can commit 10 at index 0; the model follows the code.

## Model

| member | source | states |
|---|---|---|
| CppInt.Quot | PiTime.cpp:127 | C++ `/` by a positive divisor truncates toward zero: the quotient has the sign of the dividend |
| CppInt.Rem | PiTime.cpp:126 | C++ `%` by a positive divisor takes the dividend's sign: in `0 .. d-1` for `x >= 0`, in `-(d-1) .. 0` for `x < 0` |
| CppInt.QuotRemDivision | PiTime.cpp:125-131 | quotient and remainder split the dividend exactly (`x == Quot*d + Rem`), and the quotient times `d` brackets `x` from below (or above for negative `x`) |
| CppInt.QuotRemNonNegative | PiTime.cpp:125-131 | on non-negative operands the truncating operators agree with Euclidean `/` and `%` |
| CppInt.ShowNat | PiTime.cpp:177 | defined as the decimal text of a non-negative value, most significant digit first; what it writes is stated by ShowNatIsDecimal and ShowNatRoundTrip |
| CppInt.Show | PiTime.cpp:177 | `stream << v` for an `int`: for `v >= 0` a non-empty run of decimal digits, for `v < 0` a minus sign followed by one |
| CppInt.ShowNatIsDecimal | PiTime.cpp:177 | writing a non-negative `int` gives a non-empty run of decimal digits with no leading zero; it is one character exactly for 0 .. 9 |
| CppInt.ShowSmall | PiTime.cpp:177 | a value 0 .. 9 is written as its single digit character; a negative value as `-` followed by its magnitude |
| CppInt.ShowNatRoundTrip | PiTime.cpp:177 | reading back the decimal text written for `v` gives `v` |
| Spigot.Len | PiTime.cpp:110 | the state vector for `n > 0` digits has at least 6 entries |
| Spigot.Init | PiTime.cpp:110-120 | the initial state vector has `Len(n)` entries |
| Spigot.Radix | PiTime.cpp:126-131 | the radix of index `i` is at least 3: `2i + 1` in the inner loop, 10 for index 0 |
| Spigot.Carry | PiTime.cpp:123-127 | defined as the carry leaving index `i` leftwards, `(num / (2i+1)) * i` with `num = 10*a[i] + carry` and 0 entering at the right end; CarryNonNegative states it is never negative |
| Spigot.PassFrom | PiTime.cpp:124-128 | the pass over indices `i ..` yields one entry per index |
| Spigot.PassStep | PiTime.cpp:124-128 | processing index `i` with `num = 10*a[i] + carry` writes `num % radix` at `i`, grows the processed suffix by one, and passes on the carry `(num / (2i+1)) * i` |
| Spigot.Passed | PiTime.cpp:123-131 | a pass keeps the vector's length |
| Spigot.Candidate | PiTime.cpp:129-130 | defined as `final_num / 10` with `final_num = 10*a[0] + carry`; PassBounds and CandidateInRange state its range |
| Spigot.CarryNonNegative | PiTime.cpp:123-128 | from non-negative entries the carry is never negative |
| Spigot.PassFromBounded | PiTime.cpp:124-128 | over non-negative entries every entry the pass leaves at index `k >= 1` lies in `0 .. 2k` (index 0: `0 .. 9`) |
| Spigot.PassBounds | PiTime.cpp:123-131 | a pass over non-negative entries leaves every entry within its radix and yields a non-negative candidate digit |
| Spigot.Clamp | PiTime.cpp:133-135 | the clamped candidate is at most 10; it equals `q` below 10 and is 10 otherwise |
| Spigot.Committed | PiTime.cpp:137-150 | a step commits `1 + nines` entries after iteration 0 when `q < 9` or `q == 10` and none otherwise; with a decimal predigit every committed entry lies in `0 .. 10` |
| Spigot.Step | PiTime.cpp:137-163 | a buffering step never alters committed entries, and any candidate other than 9 after iteration 0 leaves no nine pending |
| Spigot.StepAppends | PiTime.cpp:137-150 | a buffering step never alters committed entries; after iteration 0 it appends exactly `1 + nines` entries when `q < 9` or `q == 10` and none when `q == 9`; iteration 0 appends none |
| Spigot.StepKeepsInv | PiTime.cpp:137-163 | a step fed a candidate in `0 .. 10` keeps the predigit in `0 .. 9`, keeps it 9 only while nothing is committed, and keeps every committed entry after the first a decimal digit |
| Spigot.After | PiTime.cpp:122-163 | every state the outer loop reaches keeps a vector of `Len(n)` entries |
| Spigot.Iterate | PiTime.cpp:122-163 | an outer iteration keeps the vector's length |
| Spigot.StopFrom | PiTime.cpp:122-167 | once `j` iterations are done and the loop has not left, it runs at least one more and at most `n + 3` in all |
| Spigot.Full | PiTime.cpp:165 | defined as the exit test: at least `n + 1` entries committed after `j` iterations; StopIsFirstFull relates it to where the loop stops |
| Spigot.Stop | PiTime.cpp:122-167 | the outer loop runs between 1 and `n + 3` iterations |
| Spigot.FinalDigits | PiTime.cpp:116-168 | defined as the committed entries when the loop ends; FinalDigitsBounded states they are digits after the first |
| Spigot.PrintedCount | PiTime.cpp:173-174 | defined as `min(n, size - 1)` (0 for an empty sequence); its contract states the count never exceeds the entries and, when positive, leaves entry 0 out |
| Spigot.FormatStep | PiTime.cpp:176-178 | writing one more entry extends the text written so far by that entry's decimal text |
| Spigot.ShowAll | PiTime.cpp:176-178 | writing a sequence of entries gives at least one character per entry |
| Spigot.PrintedEntries | PiTime.cpp:173-177 | the printed entries are `PrintedCount` of them, entry `i` being committed entry `i + 1` |
| Spigot.Formatted | PiTime.cpp:170-180 | the formatted text starts with `"3."` |
| Spigot.PiString | PiTime.cpp:105-181 | the returned string starts with `"3."`, also for `n <= 0` |
| SpigotLemmas.AfterRadixBounded | PiTime.cpp:110-131 | in every state the loop reaches, `a[0]` is a decimal digit and `a[i]` lies in `0 .. 2i` |
| SpigotLemmas.CandidateInRange | PiTime.cpp:129-135 | every iteration's clamped candidate digit lies in `0 .. 10` |
| SpigotLemmas.AfterBufferInv | PiTime.cpp:119-163 | in every state the loop reaches, the predigit is in `0 .. 9` and every committed entry after the first is in `0 .. 9` |
| SpigotLemmas.FirstIteration | PiTime.cpp:137-163 | iteration 0 commits nothing and leaves no nine pending |
| SpigotLemmas.AfterStepAppends | PiTime.cpp:137-150 | one outer iteration only appends to the committed entries |
| SpigotLemmas.AfterAppendOnly | PiTime.cpp:137-150 | the committed entries after `j` iterations are a prefix of those after any `k >= j` iterations |
| SpigotLemmas.StopFromStep | PiTime.cpp:165-167 | the exit test after iteration `j` decides whether the loop stops there or goes on |
| SpigotLemmas.StopFromFull | PiTime.cpp:122-167 | if the loop stops before `n + 3` iterations, at least `n + 1` entries are committed at that point |
| SpigotLemmas.StopFromNotFull | PiTime.cpp:122-167 | no iteration before the stopping point had `n + 1` entries committed |
| SpigotLemmas.StopIsFirstFull | PiTime.cpp:122-167 | the loop runs between 1 and `n + 3` iterations and stops at the first one after which `n + 1` entries are committed |
| SpigotLemmas.ShowAllDigits | PiTime.cpp:176-178 | writing entries that are all decimal digits gives one digit character per entry |
| SpigotLemmas.FinalDigitsBounded | PiTime.cpp:137-168 | when the loop ends, every committed entry after the first is a decimal digit |
| SpigotLemmas.FormattedShape | PiTime.cpp:170-180 | the result is `"3."` followed by one digit character per printed entry, the character at `i` standing for committed entry `i - 1` |
| SpigotLemmas.PiStringShape | PiTime.cpp:105-181 | the result starts with `"3."`, is exactly `"3."` for `n <= 0`, has at most `n` digit characters and exactly `n` when the loop left early, each standing for committed entry `i - 1` |
| PiTime.NormalizePass | PiTime.cpp:123-131 | the in-place pass over the array leaves exactly `Passed` of the old vector and returns its candidate digit; from non-negative entries it leaves every entry within its radix and a non-negative candidate |
| PiTime.BufferStep | PiTime.cpp:137-163 | the `push_back` loops and scalar updates compute `Step`: after iteration 0, `q < 9` appends the predigit and `nines` nines, `q == 10` appends predigit+1 and `nines` zeros, `q == 9` only counts one more nine; iteration 0 appends nothing and records the predigit |
| PiTime.OuterIteration | PiTime.cpp:122-163 | one body of the outer loop takes the state after `j` iterations to the state after `j + 1` |
| PiTime.NewStateVector | PiTime.cpp:110-114 | allocates a fresh vector equal to the initial one: `Len(n)` twos |
| PiTime.GenerateDigits | PiTime.cpp:116-168 | the outer loop, with its early exit, ends with exactly the committed entries of the state at `Stop(n)` |
| PiTime.FormatDigits | PiTime.cpp:170-180 | the formatting loop writes `"3."` and then the printed entries in decimal |
| PiTime.CalculatePiDigitsString | PiTime.cpp:105-181 | returns `PiString(n)`: starts with `"3."`, has at most `n` further characters, all decimal digits |

## Left out

- `main` (PiTime.cpp:184-200) is left out. It only times the call with `std::chrono` and writes to `std::cout`.
- Spigot.Len: the length is computed as the integer `(10*n)/3 + 3`, not with doubles as in
  `std::floor(10.0 * n / 3.0)`. The two agree for every positive `int` `n`, since `10n/3` is never
  within rounding distance of the next integer.
- Fixed-width arithmetic is not modelled: `int` and `long long`, and the `static_cast<int>`
  narrowing on PiTime.cpp:125-131. The model uses unbounded integers. Each stored remainder is below
  its radix, so the narrowing of `a[i]` cannot lose information. Overflow of the carry for very
  large `n` is not modelled.
- `calculated_digits.reserve(n + 5)` only sets capacity and is not modelled.
- Two facts are number theory, not code behaviour, and are not proved: that the committed digits
  are those of π, and that `n + 3` outer iterations always commit `n + 1` entries.
  - PiTime.CalculatePiDigitsString is therefore proved to return at most `n` digits, and exactly
    `n` (length `n + 2`) only when the loop left early (SpigotLemmas.PiStringShape). The promise
    of `"3."` followed by `n` digits (PiTime.cpp:11-12) rests on that number-theoretic fact.
- The monotonic-prefix property across different `n` (the digits for `n1 < n2` being a prefix of
  those for `n2`) is not modelled. The two runs use state vectors of different lengths, so the
  property is again about π rather than about the code. Within one run, committed entries are
  proved append-only (SpigotLemmas.AfterAppendOnly).
