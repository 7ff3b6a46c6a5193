/** The first stage: `numberOfSets` sets, each filled by rejection sampling with
    `size` distinct integers drawn from an interval. */
module RandomGeneration {
  import opened IntegerRanges

  /** The exception a draw raises when its bounds are empty. */
  datatype Error = IllegalArgument

  /** A value, or the exception that took its place. */
  datatype Result<T> = Success(value: T) | Failure(error: Error)

  /** Stand-in for the platform's default random generator.

      Its only promise about a value is that it lies in `[min, max)`; nothing is
      said about its distribution. A uniform source returns a value that has not
      been collected yet with probability one, eventually; the model states that
      fairness as a budget: a draw may hand back an already collected value only
      while `patience` lasts, and every such repeat uses up some of it. The set
      collected so far is passed in only so that this budget can be kept. */
  class RandomSource {
    var patience: nat

    constructor (patience: nat)
      ensures this.patience == patience
    {
      this.patience := patience;
    }

    /** `nextInt(min, max)`: an integer of the half-open interval, or
        `IllegalArgumentException` when `min >= max`. */
    method NextInt(min: int, max: int, collected: set<int>) returns (r: Result<int>)
      requires min < max ==> !(IntegerRange(min, max).Values() <= collected)
      modifies this
      ensures r.Failure? <==> min >= max
      ensures r.Success? ==> min <= r.value < max
      ensures r.Success? && r.value in collected ==> patience < old(patience)
    {
      if min >= max {
        return Failure(IllegalArgument);
      }
      var x :| min <= x < max;
      if x in collected {
        if patience == 0 {
          x :| x in IntegerRange(min, max).Values() && x !in collected;
        } else {
          patience := patience - 1;
        }
      } else {
        var refreshed: nat :| true;
        patience := refreshed;
      }
      r := Success(x);
    }
  }

  /** Rejection sampling can only finish when the interval holds at least `size`
      distinct integers (or when nothing is to be drawn at all). */
  predicate CanFill(r: IntegerRange, size: int) {
    size <= 0 || size <= r.max - r.min
  }

  /** `singleSet` comes back, with a set or with an exception: it can fill the
      set, or its first draw already has empty bounds. It runs forever exactly
      when `0 < max - min < size`. */
  predicate SamplingEnds(r: IntegerRange, size: int) {
    CanFill(r, size) || r.max <= r.min
  }

  /** A set of `size` distinct integers of `r` (none when `size` is not positive):
      every outcome a single `singleSet` call can have. */
  predicate IsSample(r: IntegerRange, size: int, s: set<int>) {
    s <= r.Values() && |s| == (if size > 0 then size else 0)
  }

  /** Some set meets `IsSample` exactly when `CanFill` holds, so the loop of
      `SingleSet` cannot finish outside its precondition: no more than
      `max - min` distinct values can ever be inserted. */
  lemma {:induction false} SampleExistsIff(r: IntegerRange, size: int)
    ensures (exists s :: IsSample(r, size, s)) <==> CanFill(r, size)
  {
    if CanFill(r, size) {
      var n := if size > 0 then size else 0;
      var prefix := IntegerRange(r.min, r.min + n);
      CardinalityIsWidth(prefix);
      assert IsSample(r, size, prefix.Values());
    }
    forall s | IsSample(r, size, s)
      ensures CanFill(r, size)
    {
      WithinRangeAtMostWidth(r, s);
    }
  }

  class RandomGenerator {
    const integerRange: IntegerRange
    const size: int
    const numberOfSets: int
    const source: RandomSource

    constructor (integerRange: IntegerRange, integersPerSet: int, numberOfSets: int, source: RandomSource)
      ensures this.integerRange == integerRange && size == integersPerSet
      ensures this.numberOfSets == numberOfSets && this.source == source
    {
      this.integerRange := integerRange;
      this.size := integersPerSet;
      this.numberOfSets := numberOfSets;
      this.source := source;
    }

    /** `asSet`: as many sets as `numberOfSets` asks for (none when it is not
        positive), each one a sample of `size` integers of the range; the
        exception of a failing draw propagates. */
    method AsSet() returns (result: Result<seq<set<int>>>)
      requires numberOfSets <= 0 || SamplingEnds(integerRange, size)
      modifies source
      ensures result.Failure? <==> numberOfSets > 0 && size > 0 && integerRange.max <= integerRange.min
      ensures result.Success? ==> |result.value| == if numberOfSets > 0 then numberOfSets else 0
      ensures result.Success? ==>
        forall i :: 0 <= i < |result.value| ==> IsSample(integerRange, size, result.value[i])
    {
      var sets := [];
      while |sets| < numberOfSets
        invariant |sets| <= if numberOfSets > 0 then numberOfSets else 0
        invariant forall i :: 0 <= i < |sets| ==> IsSample(integerRange, size, sets[i])
        invariant sets != [] ==> !(size > 0 && integerRange.max <= integerRange.min)
        decreases numberOfSets - |sets|
      {
        var s := SingleSet();
        if s.Failure? {
          return Failure(s.error);
        }
        sets := sets + [s.value];
      }
      return Success(sets);
    }

    /** `singleSet`: draw and insert until the set holds `size` integers;
        a draw that is already in the set leaves it unchanged, and a draw
        with empty bounds throws. */
    method SingleSet() returns (result: Result<set<int>>)
      requires SamplingEnds(integerRange, size)
      modifies source
      ensures result.Failure? <==> size > 0 && integerRange.max <= integerRange.min
      ensures result.Success? ==> IsSample(integerRange, size, result.value)
    {
      var integers := {};
      while |integers| < size
        invariant integers <= integerRange.Values()
        invariant size > 0 ==> |integers| <= size
        invariant size <= 0 ==> integers == {}
        decreases size - |integers|, source.patience
      {
        if integerRange.min < integerRange.max {
          MissesSomeValue(integerRange, integers);
        }
        var x := source.NextInt(integerRange.min, integerRange.max, integers);
        if x.Failure? {
          return Failure(x.error);
        }
        assert x.value in integers ==> integers + {x.value} == integers;
        integers := integers + {x.value};
      }
      return Success(integers);
    }
  }
}
