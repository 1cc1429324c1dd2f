# Encoding-error search, modelled in Dafny

The program reads a list of unsigned 64-bit integers and runs two searches over it:

- **`findWeakInput`**: keeps the last `PREAMBLE_SIZE` values in a ring of slots, and keeps the same values in an `unordered_set` (the cache). Each slot pairs its value with an iterator into the cache. Every value read is appended to `inputList`. `getNextInputReferenceLocation` then writes the new value into the slot of the oldest value and advances the ring position. While the cache is not full, the value is only inserted. Once it is full, the value is tested with `isInputComputableAsCacheSum` on the ring as it now stands, new value included: is it `a + b` for a slot value `a` and a cache element `b` that is not the element of `a`'s own iterator? The first value failing the test is the *weak input*. After the test, the element of the recycled slot's iterator (the oldest value) is extracted from the cache, the new value is inserted in its place, and the slot's iterator is pointed at it.
- **`findWeakMinMaxSum`**: moves two pointers over `inputList` with a running sum. It looks for a contiguous run adding up to the weak input and returns `min + max` of that run, computed by `findMinMax`.

The model is functional where the program keeps state and imperative where it loops:

- `Validator` (validator.dfy) is the state machine of the read loop. The globals and the function-local `static` ring position become fields of one datatype. Each search starts from the initial state `Init`; the program never resets those variables, which agrees because `main` searches once. `NextReferenceLocation` models `getNextInputReferenceLocation`, `IsPreambleComplete` models `isPreambleComplete`, `IsComputableAsCacheSum` models `isInputComputableAsCacheSum`, and `Step`/`Run` model the loop body of `findWeakInput`. An iterator into the cache is modelled by the element it designates (`Some(x)`); `None` is the default-constructed iterator of a slot never written. `emplace`, `extract` and `insert` become set union and difference.
- `Windows` (windows.dfy) states what the search is meant to find, over the input alone: `Passes` (a sum of two values at different positions of the window before it) and `IsFirstWeak`.
- `ValidatorRing` and `WeakInputProofs` relate the two. `WeakInput` (weak_input.dfy) holds the loops over an array ring, each proved equal to the state machine.
- `MinMax` and `WeakSum` model `findMinMax` and `findWeakMinMaxSum`. They are checked against the reference definitions `SeqMin`, `SeqMax` and `Sum`.
- `Words` writes out the 64-bit wrap-around of `+` and `-`. `Outcomes` turns the two `std::runtime_error`s into `Failure` values.

The window size is a parameter `n > 0`; the program fixes it at `PREAMBLE_SIZE` = 25.

Three behaviours of the code are modelled as written:

- A weak value of 0 is never recorded, because 0 marks "not found yet" (main.cpp:70, 84, 96).
- `findWeakMinMaxSum` never examines a run ending at the last value: the loop stops as soon as the right pointer reaches the end. It accepts a run of one value. For a target of 0 and a non-empty list it accepts the empty run and returns `UINT64_MAX + 0`; an empty list throws, whatever the target. A run of at least two values is what the puzzle asks for, but the code does not enforce it.
- Sums and differences wrap modulo 2^64.

## Model

| member | source | states |
|---|---|---|
| `ValidatorRing.InitHolds` | main.cpp:25-29 | before the first value the list and cache are empty, every slot is default-constructed and the ring position is 0: the ring and cache invariants hold of the empty input |
| `Validator.NextReferenceLocation` | main.cpp:48-62 | writes the value into the slot at the ring position, keeping that slot's iterator, leaves the other slots, the cache, the recorded value and the list alone, and moves the position to (pos + 1) mod n |
| `Validator.FindsIffPartner` | main.cpp:36-39 | the `find_if` predicate holds for a slot iff the cache holds an element b, other than the one the slot's iterator designates, with slot value + b == v on the word |
| `Validator.Step` | main.cpp:75-93 | one iteration appends v to the list, leaves slot (old position) holding v with an iterator to v and every other slot as it was, puts v in the cache, which grows by at most one element, and changes the recorded value only from 0 to v, and only once the cache was full |
| `Validator.Run` | main.cpp:73-94 | after reading s the list is s, and a recorded value is one of the values read |
| `Validator.WeakInputOf` | main.cpp:96-101 | a failure is the "Unable to find any weak input" error; a success is a non-zero value of the input |
| `Validator.CorrectedWeakInputOf` | main.cpp:96-101 | the same for the search that tests before the slot write |
| `ValidatorRing.RingHoldsLastValues` | main.cpp:48-62 | after k values the ring position is k mod n, and each of the last n values sits in slot (its index mod n) with a handle designating that value; with no value repeated within n consecutive values the handle is the slot's iterator into the cache, otherwise the program's iterator may already be invalidated (see Left out); `inputList` holds every value read, in order, also after a weak value is found |
| `ValidatorRing.RunPosition` | main.cpp:50-58 | the static ring position advances by one per value and wraps to 0 at n, so it is k mod n after k values |
| `ValidatorRing.StepKeepsRing` | main.cpp:75-92 | one loop iteration writes the new value, with a handle designating it, into the slot at the ring position and leaves the other slots alone |
| `ValidatorRing.StepKeepsCache` | main.cpp:78-92 | with no value repeated within n consecutive values, one iteration turns the cache from the set of the last n values into the next such set: the oldest value is extracted and the new one inserted (or, before the cache is full, just inserted) |
| `ValidatorRing.RunKeepsCache` | main.cpp:78-92 | with no value repeated within n consecutive values, after any input the cache is exactly the set of the last min(k, n) values |
| `ValidatorRing.CompleteIffFull` | main.cpp:43-46 | with distinct windows the cache is full (`isPreambleComplete`) exactly when at least n values have been read |
| `ValidatorRing.CacheAtMostRead` | main.cpp:78-92 | the cache never holds more values than have been read, whatever the input |
| `ValidatorRing.PreambleRecordsNothing` | main.cpp:78-81 | values read while the cache is not full are only inserted and never tested, so with at most n values nothing is recorded, whatever the values |
| `ValidatorRing.WeakRecordedOnce` | main.cpp:84-87 | once a weak value is recorded, later values never overwrite it |
| `ValidatorRing.DistinctValuesCount` | main.cpp:20 | a set holds one element per distinct value, so n distinct window values give a cache of n elements |
| `WeakInputProofs.SumTestBeforeWrite` | main.cpp:32-41 | with no value repeated within n consecutive values, on the ring as it stands before the write, the cache test holds iff v is the word sum of two values at different window positions; a slot never pairs with itself, because its own iterator is excluded |
| `WeakInputProofs.SumTestAfterWrite` | main.cpp:32-62 | with no value repeated within n consecutive values, on the ring as the program tests it, after the write, the cache test holds iff v is such a sum, or 0 is among the window values other than the oldest |
| `WeakInputProofs.PairPassesCacheTest` | main.cpp:34-40 | with no value repeated within n consecutive values, two window positions adding up to v make the slot of one of them find the other, before and after the write |
| `WeakInputProofs.StepRecordsFirstWeak` | main.cpp:84-87 | with no value repeated within n consecutive values, all values below 2^63 and, in the program's order, no zero value: one iteration records v iff nothing was recorded yet and v is the first weak value |
| `WeakInputProofs.RunRecordsFirstWeak` | main.cpp:73-94 | under the same three conditions (the no-zero one only in the program's order), after any input the recorded value is 0 iff no non-zero value after the first n is weak, and otherwise it is the first weak value |
| `WeakInputProofs.WeakInputIsFirstWeak` | main.cpp:64-102 | with distinct windows, no zero and values below 2^63, `findWeakInput` throws iff every value after the first n is a sum of two distinct values among the n before it; otherwise it returns the first one that is not (`IsFirstWeakResult`) |
| `WeakInputProofs.CorrectedWeakInputIsFirstWeak` | main.cpp:64-102 | with the test moved before the slot write, the same holds with zeros allowed; the result is the first weak non-zero value |
| `WeakInput.IsInputComputableAsCacheSum` | main.cpp:32-41 | the `find_if` loop answers true iff some slot finds `v - value` in the cache at an element other than its own |
| `WeakInput.ReadValue` | main.cpp:75-92 | one iteration of the read loop on the array ring leaves exactly the state one step of the state machine gives: value appended, slot written and position advanced, inserted during the preamble, otherwise tested while nothing is recorded and swapped into the cache in place of the slot's old element |
| `WeakInput.ReadAll` | main.cpp:73-94 | the read loop over an array ring leaves the ring, position, cache, recorded value and list that the state machine reaches after the whole input |
| `WeakInput.FindWeakInput` | main.cpp:64-102 | the read loop over an array ring computes what the state machine computes; it returns the whole input as `inputList`, throws when there are at most n values, and under the conditions above returns the first weak value |
| `Windows.WrappingSumIsSum` | main.cpp:38 | below 2^63 the wrapping difference lookup agrees with the integer two-sum |
| `Words.SubFindsAddend` | main.cpp:38 | looking up `v - a` on the word finds exactly the b with `a + b == v` on the word |
| `MinMax.FindMinMax` | main.cpp:104-125 | min is at most every value of the range and max at least every value; both are values of the range when it is non-empty, and the empty range gives `(UINT64_MAX, 0)`; they equal the reference `SeqMin` and `SeqMax` |
| `MinMax.RangeMinIsSeqMin` | main.cpp:107-114 | the fold's characterisation (a lower bound that is attained, or the sentinel) determines the minimum uniquely |
| `MinMax.RangeMaxIsSeqMax` | main.cpp:106-119 | the same for the maximum |
| `WeakSum.FindWeakMinMaxSum` | main.cpp:127-152 | a success names a run, ending before the last value, whose sum is the target modulo 2^64, with result `min + max` of the run; when the list sums below 2^64 it succeeds iff such a run exists, and returns the run with the earliest end, then earliest start |
| `WeakSum.SumStepRight` | main.cpp:132-135 | taking in the right value keeps the running sum equal to the run's sum modulo 2^64 and keeps every earlier start above the target; when the list sums below 2^64 it also rules out every run ending at the old right pointer |
| `WeakSum.SumStepLeft` | main.cpp:138-141 | letting the left value go keeps the running sum equal to the run's sum modulo 2^64; the dropped start is above the target, whatever the input |
| `WeakSum.FoundRunIsFirst` | main.cpp:143-147 | when the list sums below 2^64, the run the search stops at is the first run adding up to the target |
| `WeakSum.SumOfInnerRun` | main.cpp:127-152 | a run inside another adds up to no more than it, which is why both pointers may only move forward |
| `WeakInputFindings.ZeroInWindowHidesWeakInput` | main.cpp:48-92 | with window size 2 and input 5, 0, 7, the value 7 is weak, yet the program records nothing and throws |
| `WeakInputFindings.CorrectedOrderFindsWeakInput` | main.cpp:84-87 | testing before the slot write records 7 for the same input |
| `WeakInputFindings.StaleElementPassesTest` | main.cpp:78-92 | a value repeated within the window leaves a stale element in the cache: with window size 3 and input 1, 2, 2, 3, 3 the last 3 is not a sum of two of 2, 2, 3, yet the test passes through the stale 1 in either order of test and write, and nothing is recorded |

## Left out

- `main` (main.cpp:154-174): opening `input.txt`, printing and the return code. `inputList` is handed from one search to the other by the caller.
- Reading with `>>` (main.cpp:73): the stream is replaced by the given sequence of values, read to its end.
- Repeated calls: the globals (main.cpp:25-29) and the `static` ring position (main.cpp:50) are never reset, so a second call of `findWeakInput` would start from the state the first left. Every model search starts from `Init`, which is faithful because `main` calls `findWeakInput` once.
- Hashing, bucket layout and node handles of `unordered_set`. An iterator is modelled by the element it designates. An invalidated iterator is not modelled. When a value repeats within n consecutive values, two slots hold iterators to the same element; once one slot's step extracts it (main.cpp:89), the other slot's iterator is invalidated, and a later extract through it is undefined behaviour. The ring theorems (`StepKeepsRing`, `RunKeepsRing`, `RingHoldsLastValues`) hold for every input, but their handle `Some(x)` matches the program's iterator only when no value repeats within n consecutive values. The cache and sum-test theorems require `DistinctWindows` for that reason. A repeated value also leaves stale or missing elements in the cache, which the test at main.cpp:38-39 can then find. The state machine models this with set union and difference. `WeakInputFindings.StaleElementPassesTest` proves one instance; no general theorem describes it.
- `WeakInputProofs.SumTestBeforeWrite`: requires no value repeated within n consecutive values, because otherwise the cache is not the window set and the test can find a stale element (`WeakInputFindings.StaleElementPassesTest`: with window 3 and input 1, 2, 2, 3, 3 the last 3 passes through the stale 1).
- `WeakInputProofs.SumTestAfterWrite`: the same condition, for the same reason.
- `WeakInputProofs.PairPassesCacheTest`: the same condition, for the same reason.
- `WeakInputProofs.WeakInputIsFirstWeak`: requires values below 2^63, because the program's test is on the 64-bit word (`SumTestBeforeWrite` and `SumTestAfterWrite` state it for all values, still with distinct windows). It also requires no zero value; see Findings.
- `WeakInputProofs.StepRecordsFirstWeak`: requires no value repeated within n consecutive values (so the cache is the window set), values below 2^63 (so the word test is the integer test) and, in the program's order, no zero value (see Findings). For the program's order with zeros or wrap-around, `SumTestAfterWrite` describes each test instead.
- `WeakInputProofs.RunRecordsFirstWeak`: the same three conditions, for the same reasons.
- `WeakSum.FindWeakMinMaxSum`: the completeness and first-run clauses require the whole list to sum below 2^64. Otherwise only the modulo-2^64 soundness clause is stated.
- `WeakSum.SumStepRight`: the running sum is the run's sum only modulo 2^64, and the exclusion of runs ending at the old right pointer requires the whole list to sum below 2^64. With wrap-around it is false: for 4, UINT64_MAX, 1, 4, 0, 0 and target 5 the search steps past the run 1, 4.
- `WeakSum.SumStepLeft`: the running sum is the run's sum only modulo 2^64, for the same reason.
- `WeakSum.FoundRunIsFirst`: requires the whole list to sum below 2^64. With wrap-around the search can stop at a run whose integer sum is not the target: for 3, UINT64_MAX, 3, 0 and target 5 it stops at 3, UINT64_MAX, 3, which sums to 2^64 + 5.
- Exception types and messages: `Failure(UnableToFindWeakInput)` and `Failure(UnableToFindWeakSum)` stand for them.
- Performance (hashed lookups, the linear two-pointer pass): not functional behaviour.

## Findings

| source | as written | input that shows it | evidently intended | confidence | as-written member | corrected member |
|---|---|---|---|---|---|---|
| main.cpp:52-60, 84 | `getNextInputReferenceLocation` writes the new value into the recycled slot before `isInputComputableAsCacheSum` runs, so that slot looks up `v - v` = 0 and the test passes whenever 0 is a newer window value | window size 2, input 5, 0, 7: 7 is not 5 + 0, yet nothing is recorded and the program throws | test the value against the window of the n values before it | medium (not executed) | `WeakInputFindings.ZeroInWindowHidesWeakInput` | `WeakInputProofs.CorrectedWeakInputIsFirstWeak` |
