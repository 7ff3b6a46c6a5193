/** The third stage: the largest prime among a set of integers, if any. */
module LargestPrimeNumber {
  import opened Optional
  import opened Greatest

  /** `d` divides `n` exactly. */
  predicate Divides(d: int, n: int) {
    d != 0 && n % d == 0
  }

  /** A prime is an integer greater than 1 that no integer strictly between 1
      and itself divides. */
  predicate IsPrimeNumber(n: int) {
    n > 1 && forall d :: 1 < d < n ==> !Divides(d, n)
  }

  /** Trial division up to the square root: no `d >= 2` with `d * d <= n` divides `n`. */
  ghost predicate NoDivisorUpToRoot(n: int) {
    forall d :: 2 <= d && d * d <= n ==> !Divides(d, n)
  }

  /** A positive divisor of a positive integer is at most that integer. */
  lemma DivisorAtMost(d: int, n: int)
    requires 0 < d && 0 < n && Divides(d, n)
    ensures d <= n
  {
  }

  /** Multiplying by a non-negative factor keeps an inequality. */
  lemma MulMonotone(a: int, b: int, c: int)
    requires a >= 0 && b <= c
    ensures a * b <= a * c
  {
  }

  /** An exact divisor leaves no remainder: `n` is `d` times its quotient. */
  lemma QuotientIsCofactor(d: int, n: int)
    requires d > 0 && Divides(d, n)
    ensures n == d * (n / d)
  {
  }

  /** A multiple of `e` leaves no remainder when divided by `e`. */
  lemma MultipleHasNoRemainder(e: int, k: int)
    requires e > 0
    ensures Divides(e, e * k)
  {
    var q, r := (e * k) / e, (e * k) % e;
    assert e * k == e * q + r;
    var t := k - q;
    assert e * t == e * k - e * q;
    if t >= 1 {
      MulMonotone(e, 1, t);
    } else if t <= -1 {
      MulMonotone(e, t, -1);
    }
  }

  /** A factor that makes a positive `d` grow is at least 2. */
  lemma FactorAboveOne(d: int, e: int)
    requires d > 0 && d * e > d
    ensures e > 1
  {
  }

  /** If `d * d` exceeds `d * e` for a positive `d`, then `e` is below `d`. */
  lemma CofactorBelow(d: int, e: int)
    requires d > 0 && d * d > d * e
    ensures e < d
  {
  }

  /** A divisor `d` with `1 < d < n` comes with a cofactor that also divides `n`,
      and one of the two is at most the square root of `n`. */
  lemma SmallDivisor(d: int, n: int) returns (small: int)
    requires 1 < d < n && Divides(d, n)
    ensures 2 <= small && small * small <= n && Divides(small, n)
  {
    var e := n / d;
    QuotientIsCofactor(d, n);
    FactorAboveOne(d, e);
    MultipleHasNoRemainder(e, d);
    assert e * d == n;
    if d * d <= n {
      small := d;
    } else {
      CofactorBelow(d, e);
      MulMonotone(e, e, d - 1);
      assert e * (d - 1) == e * d - e;
      small := e;
    }
  }

  /** `2 <= d` and `d * d <= n` place `d` strictly between 1 and `n`. */
  lemma RootBoundBelow(d: int, n: int)
    requires 2 <= d && d * d <= n
    ensures d < n
  {
    assert d * d >= 2 * d;
  }

  /** For `n >= 2`, trial division up to the square root decides primality:
      `n` is prime exactly when no `d` with `2 <= d` and `d * d <= n` divides it. */
  lemma TrialDivisionAgrees(n: int)
    requires n >= 2
    ensures IsPrimeNumber(n) <==> NoDivisorUpToRoot(n)
  {
    if IsPrimeNumber(n) {
      forall d | 2 <= d && d * d <= n
        ensures !Divides(d, n)
      {
        RootBoundBelow(d, n);
      }
    }
    if !IsPrimeNumber(n) {
      var d :| 1 < d < n && Divides(d, n);
      var small := SmallDivisor(d, n);
    }
  }

  /** The definition matches the usual wording: `n` is greater than 1 and its
      only positive divisors are 1 and `n` itself. */
  lemma OnlyTrivialDivisors(n: int)
    ensures IsPrimeNumber(n) <==> n > 1 && forall d :: 0 < d && Divides(d, n) ==> d == 1 || d == n
  {
    if IsPrimeNumber(n) {
      forall d | 0 < d && Divides(d, n)
        ensures d == 1 || d == n
      {
        DivisorAtMost(d, n);
      }
    }
  }

  /** If no `d` below `i` divides `n` and `i * i` already exceeds `n`, then `n`
      is prime. */
  lemma NoDivisorBelowMeansPrime(n: int, i: int)
    requires n >= 2 && 2 <= i && i * i > n
    requires forall d :: 2 <= d < i ==> !Divides(d, n)
    ensures IsPrimeNumber(n)
  {
    forall d | 2 <= d && d * d <= n
      ensures !Divides(d, n)
    {
    }
    TrialDivisionAgrees(n);
  }

  /** `isPrime`: trial division by `i = 2, 3, ...` while `i * i <= n`, stopping
      at the first exact divisor. */
  method IsPrime(n: int) returns (prime: bool)
    ensures prime <==> IsPrimeNumber(n)
  {
    if n <= 1 {
      return false;
    }
    var i := 2;
    while i * i <= n
      invariant 2 <= i
      invariant forall d :: 2 <= d < i ==> !Divides(d, n)
      decreases n - i
    {
      RootBoundBelow(i, n);
      if n % i == 0 {
        assert Divides(i, n);
        return false;
      }
      i := i + 1;
    }
    NoDivisorBelowMeansPrime(n, i);
    return true;
  }

  /** `asInteger`: keep the primes of `numbers` and return the greatest of them,
      or nothing when there is none. */
  function LargestPrime(numbers: set<int>): (largest: Option<int>)
    ensures largest.Some? ==> largest.value in numbers && IsPrimeNumber(largest.value)
    ensures largest.Some? ==> forall p :: p in numbers && IsPrimeNumber(p) ==> p <= largest.value
    ensures largest.None? <==> forall p :: p in numbers ==> !IsPrimeNumber(p)
  {
    var primes := set p | p in numbers && IsPrimeNumber(p);
    assert forall p :: p in numbers && IsPrimeNumber(p) ==> p in primes;
    if primes == {} then None else Some(Max(primes))
  }

  /** The larger of two optional results; an absent one loses to any present one. */
  function Larger(a: Option<int>, b: Option<int>): Option<int> {
    match (a, b)
    case (None, _) => b
    case (_, None) => a
    case (Some(x), Some(y)) => if x < y then b else a
  }

  /** The maximum may be computed on any split of the input and the partial
      results combined, as a parallel stream does: the result does not depend on
      the order in which the set is visited. */
  lemma LargestPrimeOfUnion(a: set<int>, b: set<int>)
    ensures LargestPrime(a + b) == Larger(LargestPrime(a), LargestPrime(b))
  {
    var whole, left, right := LargestPrime(a + b), LargestPrime(a), LargestPrime(b);
    var combined := Larger(left, right);
    if whole.Some? {
      assert combined.Some?;
      LargestIsUnique(a + b, whole.value, combined.value);
    }
  }

  /** At most one prime of a set is at least every prime of that set. */
  lemma LargestIsUnique(numbers: set<int>, p: int, q: int)
    requires p in numbers && IsPrimeNumber(p) && q in numbers && IsPrimeNumber(q)
    requires forall x :: x in numbers && IsPrimeNumber(x) ==> x <= p
    requires forall x :: x in numbers && IsPrimeNumber(x) ==> x <= q
    ensures p == q
  {
  }

  /** 25 = 5 * 5 is not prime; 2, 5, 7 and 11 are. */
  lemma SmallNumbers()
    ensures !IsPrimeNumber(1) && !IsPrimeNumber(4) && !IsPrimeNumber(6)
    ensures !IsPrimeNumber(8) && !IsPrimeNumber(9) && !IsPrimeNumber(25)
    ensures IsPrimeNumber(2) && IsPrimeNumber(5) && IsPrimeNumber(7) && IsPrimeNumber(11)
  {
    assert Divides(2, 4) && Divides(2, 6) && Divides(2, 8) && Divides(3, 9) && Divides(5, 25);
    forall n, d | n in {2, 5, 7, 11} && 2 <= d && d * d <= n
      ensures !Divides(d, n)
    {
    }
    TrialDivisionAgrees(2);
    TrialDivisionAgrees(5);
    TrialDivisionAgrees(7);
    TrialDivisionAgrees(11);
  }

  /** The selector's documented cases: `{1}`, `{}` and `{1, 4, 6, 8, 9}` have no
      prime; `{5}` gives 5, `{2}` gives 2 and `{2, 3, 5, 7, 11, 25}` gives 11. */
  lemma DocumentedCases()
    ensures LargestPrime({1}) == None
    ensures LargestPrime({}) == None
    ensures LargestPrime({5}) == Some(5)
    ensures LargestPrime({2}) == Some(2)
    ensures LargestPrime({1, 4, 6, 8, 9}) == None
    ensures LargestPrime({2, 3, 5, 7, 11, 25}) == Some(11)
  {
    SmallNumbers();
  }
}
