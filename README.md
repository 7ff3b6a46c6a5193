# Number service: a verified model of its three-stage pipeline

The number service is a one-shot batch computation over integers. It takes a
half-open range `[min, max)`, a set size and a number of sets. Its pipeline has
three stages:

1. **Random generator** (`RandomGenerator.asSet` / `singleSet`). It builds
   `numberOfSets` sets. It fills each set by rejection sampling: it draws an
   integer of the range and inserts it, until the set holds `size` integers.
2. **Available numbers** (`AvailableNumbers.asSet` / `uniqueNumbers`). It takes
   the union of the generated sets. It keeps every integer of the range that
   is not in that union.
3. **Largest prime** (`LargestPrimeNumber.asInteger` / `isPrime`). It keeps the
   primes of the available numbers and returns the greatest, if there is one.
   Primality is decided by trial division while `i * i <= n`.

The model follows the source's own form, file by file:

- `integer_range.dfy` (`IntegerRanges`) holds the range value `IntegerRange(min, max)`
  and facts about how many integers it holds.
- `random_generator.dfy` (`RandomGeneration`) is imperative, like its source.
  `RandomGenerator` is a class with the source's final fields. `AsSet` grows a
  sequence in a `while` loop. `SingleSet` grows a set in a `while` loop. The
  platform random generator becomes the class `RandomSource`.
- `available_numbers.dfy` (`Availability`) is pure functions and lemmas, like
  the stream code it models.
- `largest_prime_number.dfy` (`LargestPrimeNumber`) is mixed, like its source.
  `IsPrime` is a method with the trial-division loop. `LargestPrime` is a
  function (filter, then maximum). It uses the predicate `IsPrimeNumber`, and
  `IsPrime` is proved to decide exactly that predicate.
- `greatest.dfy` (`Greatest`) holds the maximum of a finite set.
- `optional.dfy` (`Optional`) holds `Option`, which stands for `java.util.Optional`.
- `number_service.dfy` (`NumberService`) holds lemmas about the stages
  composed in the application's order.

**The random source.** The model's `RandomSource.NextInt(min, max, collected)`
fails with `IllegalArgument` exactly when `min >= max`, and otherwise promises
only a value in `[min, max)`. It says nothing about distribution.
Rejection sampling ends with probability one, but a source that promises only
"in range" could repeat a value forever. So the model states fairness
explicitly, as a budget `patience`. A draw may return a value already in the
set only while the budget lasts, and each such repeat uses some of it. A new
value may refresh the budget to any amount. The collected set is passed to the
draw for this bookkeeping only; the draw requires that, when the bounds are
not empty, some value of the range is still missing from it, a precondition
the platform `nextInt` does not have. `SingleSet` meets it through
`MissesSomeValue`, because the set is smaller than the range while the loop
runs. With this, the loop of `SingleSet` is proved to
end: it decreases `(size - |integers|, patience)`.

**When the generator does not come back.** The code checks nothing before
the sampling loop. When `size > 0` and `min >= max`, the first draw calls
`nextInt(min, max)` with empty bounds, which throws `IllegalArgumentException`;
this is the second `@throws` line of `asSet`'s documentation. The model returns
`Failure(IllegalArgument)` from `NextInt`, and `SingleSet` and `AsSet` pass it
on. When `0 < max - min < size`, the set can never reach `size` elements and
`singleSet` loops forever. The model cannot express a run that never ends, so
`SingleSet` requires `SamplingEnds` (the set can be filled, or the bounds are
empty), and `AsSet` requires it only when `numberOfSets > 0`, because otherwise
`singleSet` is never called. `SampleExistsIff` proves that outside `CanFill` no
set meets the loop's exit condition. The first `@throws` line (a non-positive
number of sets or set size) describes nothing the code does: those inputs give
an empty list or empty sets. When `min >= max`, `AvailableNumbers` yields the
empty set.

## Model

| member | source | states |
|---|---|---|
| `IntegerRanges.CardinalityIsWidth` | src/main/java/com/takehome/numberservice/services/RandomGenerator.java:82-84 | the range `[min, max)` holds exactly `max - min` distinct integers (none when `max <= min`) |
| `IntegerRanges.WithinRangeAtMostWidth` | src/main/java/com/takehome/numberservice/services/RandomGenerator.java:82-84 | a set of integers drawn from the range has at most `max - min` elements, so no more distinct values can ever be inserted |
| `IntegerRanges.MissesSomeValue` | src/main/java/com/takehome/numberservice/services/RandomGenerator.java:82-83 | while the set is smaller than the range, some integer of the range is still missing from it, so a new value can still be drawn |
| `RandomGeneration.RandomSource.NextInt` | src/main/java/com/takehome/numberservice/services/RandomGenerator.java:83 | `nextInt(min, max)` throws `IllegalArgumentException` exactly when `min >= max`; otherwise it returns an integer of `[min, max)`, and returning a value already collected uses up fairness budget |
| `RandomGeneration.SampleExistsIff` | src/main/java/com/takehome/numberservice/services/RandomGenerator.java:81-84 | a set of exactly `size` distinct integers of the range (empty when `size <= 0`) exists if and only if `size <= 0` or `size <= max - min`; this is exactly when the filling loop can stop |
| `RandomGeneration.RandomGenerator.constructor` | src/main/java/com/takehome/numberservice/services/RandomGenerator.java:43-48 | the generator keeps the range, the set size, the number of sets and the random source it is given |
| `RandomGeneration.RandomGenerator.AsSet` | src/main/java/com/takehome/numberservice/services/RandomGenerator.java:60-68 | throws exactly when `numberOfSets > 0`, `size > 0` and `min >= max`; otherwise returns exactly `numberOfSets` sets (none when `numberOfSets <= 0`, whatever the other settings), each a subset of the range with exactly `size` elements (empty when `size <= 0`) |
| `RandomGeneration.RandomGenerator.SingleSet` | src/main/java/com/takehome/numberservice/services/RandomGenerator.java:79-87 | the loop ends unless `0 < max - min < size`; it throws exactly when `size > 0` and `min >= max`; otherwise the set lies within `[min, max)` and has exactly `size` elements (none when `size <= 0`); its invariant keeps the set in range and never larger than `size` |
| `Availability.UniqueNumbers` | src/main/java/com/takehome/numberservice/services/AvailableNumbers.java:64-75 | `x` is in the union if and only if some set of the list contains `x` |
| `Availability.AvailableNumbers` | src/main/java/com/takehome/numberservice/services/AvailableNumbers.java:42-56 | the result lies within `[min, max)`; it is disjoint from every input set; it holds every integer of the range that is in no input set |
| `Availability.Partition` | src/main/java/com/takehome/numberservice/services/AvailableNumbers.java:44-51 | available and taken-in-range numbers do not overlap; their union is the whole range; their sizes add up to `max - min` |
| `Availability.NoSetsLeaveWholeRange` | src/main/java/com/takehome/numberservice/services/AvailableNumbers.java:44-51 | an empty list of sets leaves the whole range available, `max - min` integers |
| `Availability.UniqueNumbersOfConcat` | src/main/java/com/takehome/numberservice/services/AvailableNumbers.java:67-70 | the union of two concatenated lists is the union of their unions, so the parallel reduction may be split anywhere |
| `Availability.OrderIrrelevant` | src/main/java/com/takehome/numberservice/services/AvailableNumbers.java:44-51 | swapping the two halves of the list of sets does not change the available numbers |
| `Availability.OutOfRangeIrrelevant` | src/main/java/com/takehome/numberservice/services/AvailableNumbers.java:46-49 | cutting every input set down to the range does not change the result: values outside the range have no effect |
| `Availability.MoreSetsFewerAvailable` | src/main/java/com/takehome/numberservice/services/AvailableNumbers.java:46-49 | adding one more set removes exactly that set's integers from the available numbers |
| `Availability.EvenSetsExample` | src/test/java/com/takehome/numberservice/services/AvailableNumbersTest.java:17-24 | range `[0, 10)` with sets `{2, 4}` and `{6, 8}` gives `{0, 1, 3, 5, 7, 9}` |
| `LargestPrimeNumber.IsPrime` | src/main/java/com/takehome/numberservice/services/LargestPrimeNumber.java:50-72 | the trial-division loop returns true exactly for primes; in particular it returns false for every `n <= 1` |
| `LargestPrimeNumber.TrialDivisionAgrees` | src/main/java/com/takehome/numberservice/services/LargestPrimeNumber.java:56-69 | for `n >= 2`, `n` is prime if and only if no `d >= 2` with `d * d <= n` divides it |
| `LargestPrimeNumber.OnlyTrivialDivisors` | src/main/java/com/takehome/numberservice/services/LargestPrimeNumber.java:43-45 | the prime predicate means: greater than 1, with no positive divisor other than 1 and itself |
| `LargestPrimeNumber.LargestPrime` | src/main/java/com/takehome/numberservice/services/LargestPrimeNumber.java:31-41 | a present result is a prime member of the input and at least every prime of the input; the result is absent if and only if the input has no prime, including when it is empty |
| `LargestPrimeNumber.LargestIsUnique` | src/main/java/com/takehome/numberservice/services/LargestPrimeNumber.java:36 | at most one prime of the set is at least every prime of the set, so the maximum is well defined |
| `LargestPrimeNumber.LargestPrimeOfUnion` | src/main/java/com/takehome/numberservice/services/LargestPrimeNumber.java:33-36 | the largest prime of `a + b` is the larger of the largest primes of `a` and of `b`, so the result does not depend on how the set is split or visited |
| `LargestPrimeNumber.DocumentedCases` | src/test/java/com/takehome/numberservice/services/LargestPrimeNumberTest.java:33-46 | `{1}`, `{}` and `{1, 4, 6, 8, 9}` give no prime; `{5}` gives 5, `{2}` gives 2 and `{2, 3, 5, 7, 11, 25}` gives 11 |
| `NumberService.ReportedPrime` | src/main/java/com/takehome/numberservice/NumberserviceApplication.java:47-50 | for any generated sets, a reported number is a prime of the range that no set holds, and it is the greatest such prime; nothing is reported exactly when no such prime exists |
| `NumberService.EvenSetsScenario` | src/test/java/com/takehome/numberservice/services/AvailableNumbersTest.java:43-50 | the fixed sets `{2, 4}` and `{6, 8}` over `[0, 10)` lead to the reported prime 7 |

## Left out

- Logging (`LOGGER.info` in all three stages): diagnostic output with no effect on any result.
- Parallel streams (`parallel()`, `parallelStream()`): the model computes sequentially. `UniqueNumbersOfConcat`, `OrderIrrelevant` and `LargestPrimeOfUnion` show that union and maximum do not depend on how the work is split.
- The platform random generator: it is replaced by `RandomSource`. The model claims nothing about distribution.
- RandomGeneration.RandomSource.NextInt: the fairness budget `patience` and the `collected` argument do not exist in the platform generator. They stand for "a uniform source eventually yields a value not yet drawn", which holds with probability one. Without them the loop's termination could not be stated. The draw's precondition that some value of a non-empty range is still missing from `collected` is part of the same abstraction.
- Java's 32-bit `int`: the model uses mathematical integers. So `i * i` in `isPrime` never overflows in the model. In the source it wraps for `i > 46340`, which affects only inputs near `Integer.MAX_VALUE`.
- `NumberserviceApplication`: Spring Boot start-up, reading the four settings from the environment, and `System.exit(0)`. Only the order in which it chains the stages is modelled, in `NumberService`.
- The `RandomGeneratorI` interface and the test stand-in that returns fixed even-number sets. The fixed sets appear directly in `EvenSetsExample` and `EvenSetsScenario`.
- RandomGeneration.RandomGenerator.SingleSet: a run that never ends (`0 < max - min < size`) cannot be stated, so `SamplingEnds` is required; `AsSet` requires it only when `numberOfSets > 0`.
- Mutable Java collections: the model returns sets and sequences as values, so aliasing of the returned `HashSet`s is not modelled.
