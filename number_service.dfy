/** The three stages in the order the application runs them: the sets produced
    by the generator go to the complement, whose result goes to the prime
    selector. */
module NumberService {
  import opened IntegerRanges
  import opened Optional
  import opened Availability
  import opened LargestPrimeNumber

  /** Whatever sets the generator produced, the reported number is a prime of
      the range that none of them holds, and no greater such prime exists; it
      is absent exactly when no integer of the range outside the sets is prime. */
  lemma ReportedPrime(sets: seq<set<int>>, r: IntegerRange)
    ensures var result := LargestPrime(AvailableNumbers(sets, r));
      && (result.Some? ==>
            && r.Contains(result.value)
            && !InSomeSet(sets, result.value)
            && IsPrimeNumber(result.value)
            && forall p :: r.Contains(p) && !InSomeSet(sets, p) && IsPrimeNumber(p) ==> p <= result.value)
      && (result.None? <==> forall p :: r.Contains(p) && !InSomeSet(sets, p) ==> !IsPrimeNumber(p))
  {
    var available := AvailableNumbers(sets, r);
    forall p | p in available
      ensures r.Contains(p) && !InSomeSet(sets, p)
    {
      assert p in r.Values();
    }
  }

  /** The range `[0, 10)` with the sets `{2, 4}` and `{6, 8}` leaves
      `{0, 1, 3, 5, 7, 9}`, whose largest prime is 7. */
  lemma EvenSetsScenario()
    ensures LargestPrime(AvailableNumbers([{2, 4}, {6, 8}], IntegerRange(0, 10))) == Some(7)
  {
    EvenSetsExample();
    SmallNumbers();
    var left := LargestPrime({0, 1, 3, 5, 7, 9});
    assert left.Some?;
    assert left.value in {0, 1, 3, 5, 7, 9} && IsPrimeNumber(left.value);
    assert left.value >= 7;
    assert left.value != 9;
  }
}
