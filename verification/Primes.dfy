/** The prime search behind the Ethash item counts and sizes (libcrypto/ethash.cpp). */
module Primes {
  import opened Arith
  import opened Words

  const M31: nat := 0x8000_0000

  ghost predicate IsPrime(n: nat) {
    n >= 2 && forall d: nat :: 2 <= d < n ==> n % d != 0
  }

  /** No divisor from 2 up to (not including) `d`. */
  ghost predicate NoDivisorBelow(n: nat, d: nat) {
    forall e: nat :: 2 <= e < d ==> n % e != 0
  }

  /** The cofactor of a divisor divides too. */
  lemma Cofactor(n: nat, e: nat)
    requires 2 <= e < n && n % e == 0
    ensures 2 <= n / e && n % (n / e) == 0 && e * (n / e) == n
  {
    var f := n / e;
    DivMod(n, e);
    if f <= 1 {
      MulMonotonic(f, 1, e);
      assert false;
    }
    DivModIs(n, e, 0, f);
  }

  /** Trial division up to the square root suffices. */
  lemma SquareRootSuffices(n: nat, d: nat)
    requires n >= 2 && d >= 2 && NoDivisorBelow(n, d) && d * d > n
    ensures IsPrime(n)
  {
    forall e: nat | 2 <= e < n ensures n % e != 0 {
      if n % e == 0 {
        Cofactor(n, e);
        var f := n / e;
        if e >= d && f >= d {
          MulMonotonic(d, e, f);
          MulMonotonic(d, f, d);
          assert false;
        }
        assert false;
      }
    }
  }

  /** Even numbers divide only even numbers. */
  lemma EvenDivisor(n: nat, e: nat)
    requires n % 2 == 1 && e % 2 == 0 && e > 0
    ensures n % e != 0
  {
    if n % e == 0 {
      DivMod(n, e);
      var q := n / e;
      MulAssociates(q, e / 2, 2);
      DivModIs(n, q * (e / 2), 0, 2);
      assert false;
    }
  }

  lemma SquareGrows(d: nat)
    ensures (d + 2) * (d + 2) == d * d + 4 * d + 4
  {
  }

  lemma OddStart(n: nat)
    requires n % 2 == 1
    ensures NoDivisorBelow(n, 3)
  {
  }

  lemma Composite(n: nat, d: nat)
    requires 3 <= d && d * d <= n && n % d == 0
    ensures !IsPrime(n) && n != 1
  {
    SquareAbove(d);
  }

  lemma NextOdd(n: nat, d: nat)
    requires n % 2 == 1 && d % 2 == 1 && NoDivisorBelow(n, d) && n % d != 0
    ensures NoDivisorBelow(n, d + 2)
  {
    EvenDivisor(n, d + 1);
  }

  /** `is_unsigned_odd_prime`: exact for every argument above 1; 1 passes as a prime. */
  method IsUnsignedOddPrime(number: word) returns (r: bool)
    ensures r <==> number % 2 == 1 && (number == 1 || IsPrime(number))
  {
    if number % 2 == 0 {
      return false;
    }
    hide IsPrime, NoDivisorBelow;
    var d: nat := 3;
    OddStart(number);
    while d * d <= number
      invariant d >= 3 && d % 2 == 1
      invariant NoDivisorBelow(number, d)
      decreases number + 1 - d * d
    {
      assert d * d < M64;
      if number % d == 0 {
        Composite(number, d);
        return false;
      }
      NextOdd(number, d);
      SquareGrows(d);
      d := d + 2;
    }
    if number > 1 {
      SquareRootSuffices(number, d);
    }
    return true;
  }

  lemma SquareAbove(d: nat)
    requires d >= 3
    ensures d < d * d
  {
    MulMonotonic(3, d, d);
  }

  /** `n` is the largest prime not above `bound`. */
  ghost predicate IsLargestPrime(bound: nat, n: nat) {
    IsPrime(n) && n <= bound && forall p: nat :: n < p <= bound ==> !IsPrime(p)
  }

  /** `find_largest_unsigned_prime`. */
  method FindLargestUnsignedPrime(bound: word) returns (n: word)
    ensures bound < 2 ==> n == 0
    ensures bound == 2 ==> n == 1
    ensures bound >= 3 ==> IsLargestPrime(bound, n)
  {
    hide IsPrime;
    if bound < 2 {
      return 0;
    }
    n := if bound % 2 == 1 then bound else bound - 1;
    if bound >= 3 {
      SmallPrimes();
      EvenNotPrime(bound);
    }
    var found := IsUnsignedOddPrime(n);
    while !found
      invariant bound == 2 ==> n == 1
      invariant bound >= 3 ==> 3 <= n <= bound
      invariant n % 2 == 1
      invariant found <==> n == 1 || IsPrime(n)
      invariant forall p: nat :: n < p <= bound && bound >= 3 ==> !IsPrime(p)
      decreases n
    {
      EvenNotPrime(n - 1);
      n := n - 2;
      found := IsUnsignedOddPrime(n);
    }
  }

  lemma SmallPrimes()
    ensures IsPrime(2) && IsPrime(3)
  {
  }

  lemma EvenNotPrime(p: nat)
    ensures p % 2 == 0 && p > 2 ==> !IsPrime(p)
  {
  }

  /** What the header promises: the largest prime not above the bound, or 0 if there is none. */
  ghost predicate Documented(bound: nat, n: nat) {
    if bound <= 1 then n == 0 else IsLargestPrime(bound, n)
  }

  /** The promise holds for every bound except 2, where the search answers 1. */
  lemma DocumentedUnlessTwo(bound: word, n: word)
    requires bound < 2 ==> n == 0
    requires bound == 2 ==> n == 1
    requires bound >= 3 ==> IsLargestPrime(bound, n)
    ensures Documented(bound, n) <==> bound != 2
  {
  }
}
