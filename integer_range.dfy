/** The half-open interval of integers shared by every stage of the pipeline:
    `min` is inclusive and `max` is exclusive. */
module IntegerRanges {

  datatype IntegerRange = IntegerRange(min: int, max: int) {

    /** True if `x` lies in the interval. */
    predicate Contains(x: int) {
      min <= x < max
    }

    /** How many integers the interval holds; zero when `max <= min`. */
    function Width(): nat {
      if min < max then max - min else 0
    }

    /** Every integer of the interval, as a set. The comparisons bound the
        comprehension; `Contains(x)` gives its membership a trigger. */
    function Values(): set<int> {
      set x | min <= x < max && Contains(x)
    }
  }

  /** The interval holds exactly `Width()` distinct integers. */
  lemma {:induction false} CardinalityIsWidth(r: IntegerRange)
    ensures |r.Values()| == r.Width()
    decreases r.Width()
  {
    if r.min >= r.max {
      assert r.Values() == {};
    } else {
      var shorter := IntegerRange(r.min, r.max - 1);
      CardinalityIsWidth(shorter);
      assert r.Values() == shorter.Values() + {r.max - 1};
    }
  }

  /** A subset has no more elements than the set that contains it. */
  lemma SubsetCardinality(a: set<int>, b: set<int>)
    requires a <= b
    ensures |a| <= |b|
  {
    assert b == a + (b - a);
  }

  /** No set of integers drawn from the interval can hold more than `Width()` of them. */
  lemma WithinRangeAtMostWidth(r: IntegerRange, s: set<int>)
    requires s <= r.Values()
    ensures |s| <= r.Width()
  {
    CardinalityIsWidth(r);
    SubsetCardinality(s, r.Values());
  }

  /** A set of integers of the interval with fewer than `Width()` elements
      misses at least one of them. */
  lemma MissesSomeValue(r: IntegerRange, s: set<int>)
    requires s <= r.Values() && |s| < r.Width()
    ensures !(r.Values() <= s)
  {
    CardinalityIsWidth(r);
    if r.Values() <= s {
      SubsetCardinality(r.Values(), s);
    }
  }
}
