/** The second stage: the integers of the range that appear in none of the
    generated sets ("available" or "missing" numbers). */
module Availability {
  import opened IntegerRanges

  /** True if some set of the list holds `x`. */
  predicate InSomeSet(sets: seq<set<int>>, x: int) {
    exists i :: 0 <= i < |sets| && x in sets[i]
  }

  /** `uniqueNumbers`: the union of every set of the list. */
  function UniqueNumbers(sets: seq<set<int>>): (taken: set<int>)
    ensures forall x :: x in taken <==> InSomeSet(sets, x)
  {
    if sets == [] then {} else sets[0] + UniqueNumbers(sets[1..])
  }

  /** `asSet`: every integer of the range that is not in the union of the sets. */
  function AvailableNumbers(sets: seq<set<int>>, r: IntegerRange): (available: set<int>)
    ensures available <= r.Values()
    ensures forall i :: 0 <= i < |sets| ==> available !! sets[i]
    ensures forall x :: r.Contains(x) && !InSomeSet(sets, x) ==> x in available
  {
    var taken := UniqueNumbers(sets);
    set i | r.min <= i < r.max && i !in taken
  }

  /** The available numbers and the taken numbers of the range split the range:
      they do not overlap, together they give back the whole range, and so
      their sizes add up to its width (no duplicate, no omission). */
  lemma Partition(sets: seq<set<int>>, r: IntegerRange)
    ensures AvailableNumbers(sets, r) * UniqueNumbers(sets) == {}
    ensures AvailableNumbers(sets, r) + (UniqueNumbers(sets) * r.Values()) == r.Values()
    ensures |AvailableNumbers(sets, r)| + |UniqueNumbers(sets) * r.Values()| == r.Width()
  {
    var available, takenInRange := AvailableNumbers(sets, r), UniqueNumbers(sets) * r.Values();
    assert available * takenInRange == {};
    assert available + takenInRange == r.Values();
    CardinalityIsWidth(r);
  }

  /** With no sets at all, every integer of the range is available. */
  lemma NoSetsLeaveWholeRange(r: IntegerRange)
    ensures AvailableNumbers([], r) == r.Values()
    ensures |AvailableNumbers([], r)| == r.Width()
  {
    CardinalityIsWidth(r);
  }

  /** The union of a concatenation is the union of the unions: the reduction may
      be split and combined in any grouping, as a parallel stream does. */
  lemma {:induction false} UniqueNumbersOfConcat(a: seq<set<int>>, b: seq<set<int>>)
    ensures UniqueNumbers(a + b) == UniqueNumbers(a) + UniqueNumbers(b)
    decreases |a|
  {
    if a != [] {
      assert (a + b)[1..] == a[1..] + b;
      UniqueNumbersOfConcat(a[1..], b);
    } else {
      assert a + b == b;
    }
  }

  /** The order of the sets does not matter: swapping two halves of the list
      leaves the available numbers unchanged. */
  lemma OrderIrrelevant(a: seq<set<int>>, b: seq<set<int>>, r: IntegerRange)
    ensures AvailableNumbers(a + b, r) == AvailableNumbers(b + a, r)
  {
    UniqueNumbersOfConcat(a, b);
    UniqueNumbersOfConcat(b, a);
  }

  /** Integers of the sets that lie outside the range have no effect: `cut`
      holds every set of the list cut down to the range. */
  lemma OutOfRangeIrrelevant(sets: seq<set<int>>, cut: seq<set<int>>, r: IntegerRange)
    requires |cut| == |sets|
    requires forall i :: 0 <= i < |sets| ==> cut[i] == sets[i] * r.Values()
    ensures AvailableNumbers(cut, r) == AvailableNumbers(sets, r)
  {
    forall x | r.Contains(x)
      ensures InSomeSet(cut, x) <==> InSomeSet(sets, x)
    {
      if InSomeSet(sets, x) {
        var i :| 0 <= i < |sets| && x in sets[i];
        assert x in cut[i];
      }
    }
  }

  /** Adding a set can only take numbers away from the available ones. */
  lemma MoreSetsFewerAvailable(sets: seq<set<int>>, extra: set<int>, r: IntegerRange)
    ensures AvailableNumbers(sets + [extra], r) == AvailableNumbers(sets, r) - extra
  {
    UniqueNumbersOfConcat(sets, [extra]);
    assert UniqueNumbers([extra]) == extra + UniqueNumbers([]);
  }

  /** The range `[0, 10)` with the sets `{2, 4}` and `{6, 8}` leaves the odd
      numbers and zero. */
  lemma EvenSetsExample()
    ensures AvailableNumbers([{2, 4}, {6, 8}], IntegerRange(0, 10)) == {0, 1, 3, 5, 7, 9}
  {
    var sets: seq<set<int>> := [{2, 4}, {6, 8}];
    assert UniqueNumbers(sets) == {2, 4, 6, 8} by {
      assert UniqueNumbers(sets[1..]) == {6, 8} + UniqueNumbers([]);
    }
  }
}
